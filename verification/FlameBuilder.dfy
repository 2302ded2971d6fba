/** The flame tree as it is built in place: linked nodes, each stack walked down from the root. */
module FlameBuilder {
  import opened FlameTree
  import opened Sequences
  import opened Stacks

  type Path = seq<string>

  class TreeNode {
    var value: nat
    var children: map<string, TreeNode>

    constructor ()
      ensures value == 0 && children == map[]
    {
      value := 0;
      children := map[];
    }
  }

  /** The nodes by their paths: the root at the empty path, a different node at every path, and the children of a node
      exactly at its path with one more frame. */
  ghost predicate Shape(root: TreeNode, at: map<Path, TreeNode>)
    reads at.Values
  {
    && [] in at && at[[]] == root
    && (forall p, q :: p in at && q in at && at[p] == at[q] ==> p == q)
    && (forall p: Path, f: string :: p + [f] in at ==>
          p in at && f in at[p].children && at[p].children[f] == at[p + [f]])
    && (forall p: Path, f: string :: p in at && f in at[p].children ==> p + [f] in at)
  }

  /** The linked nodes and their values. */
  ghost predicate Tree(root: TreeNode, at: map<Path, TreeNode>, values: map<Path, nat>)
    reads at.Values
  {
    && Shape(root, at)
    && (forall p :: p in at <==> p in values)
    && (forall p :: p in at ==> at[p].value == values[p])
  }

  /** These are the nodes of `tree` and their values. */
  ghost predicate ValuesOf(values: map<Path, nat>, tree: FlameNode) {
    && (forall p :: p in values <==> NodeAt(tree, p).Some?)
    && (forall p :: p in values ==> values[p] == ValueAt(tree, p))
  }

  function ValueOr0(values: map<Path, nat>, path: Path): nat {
    if path in values then values[path] else 0
  }

  function Entered(values: map<Path, nat>, path: Path): map<Path, nat> {
    values[path := ValueOr0(values, path)]
  }

  function Added(values: map<Path, nat>, path: Path, weight: nat): map<Path, nat> {
    values[path := ValueOr0(values, path) + weight]
  }

  // ----- one node

  lemma SnocInjective(p: Path, f: string, q: Path, g: string)
    ensures p + [f] == q + [g] <==> p == q && f == g
  {
    if p + [f] == q + [g] {
      assert (p + [f])[..|p|] == p && (q + [g])[..|q|] == q;
      assert (p + [f])[|p|] == f;
    }
  }

  method MakeChild(
    ghost root: TreeNode, ghost at: map<Path, TreeNode>, ghost path: Path, node: TreeNode, frame: string)
    returns (child: TreeNode, ghost at': map<Path, TreeNode>)
    requires Shape(root, at) && path in at && at[path] == node && frame !in node.children
    modifies node`children
    ensures Shape(root, at') && at' == at[path + [frame] := child] && fresh(child) && child.value == 0
    ensures path + [frame] !in at && node.children == old(node.children)[frame := child]
  {
    child := new TreeNode();
    node.children := node.children[frame := child];
    at' := at[path + [frame] := child];
    forall p: Path, f: string | p + [f] in at'
      ensures p in at' && f in at'[p].children && at'[p].children[f] == at'[p + [f]]
    {
      SnocInjective(p, f, path, frame);
    }
    forall p: Path, f: string | p in at' && f in at'[p].children ensures p + [f] in at' {
      SnocInjective(p, f, path, frame);
    }
  }

  /** The child of a node for a frame, made if there is none. */
  method Enter(
    ghost root: TreeNode, ghost at: map<Path, TreeNode>, ghost path: Path, node: TreeNode, frame: string,
    ghost values: map<Path, nat>)
    returns (child: TreeNode, ghost at': map<Path, TreeNode>, ghost values': map<Path, nat>)
    requires Tree(root, at, values) && path in at && at[path] == node
    modifies node`children
    ensures Tree(root, at', values') && fresh(at'.Values - at.Values)
    ensures path + [frame] in at' && at'[path + [frame]] == child
    ensures values' == Entered(values, path + [frame])
  {
    at' := at;
    if frame !in node.children {
      child, at' := MakeChild(root, at, path, node, frame);
    }
    values' := Entered(values, path + [frame]);
    child := node.children[frame];
  }

  method AddWeight(
    ghost root: TreeNode, ghost at: map<Path, TreeNode>, ghost path: Path, node: TreeNode, weight: nat,
    ghost values: map<Path, nat>)
    returns (ghost values': map<Path, nat>)
    requires Tree(root, at, values) && path in at && at[path] == node
    modifies node`value
    ensures Tree(root, at, values') && values' == Added(values, path, weight)
  {
    node.value := node.value + weight;
    values' := Added(values, path, weight);
  }

  /** One frame further down: its node, made if needed, with the weight added. */
  method Descend(
    ghost root: TreeNode, ghost at: map<Path, TreeNode>, ghost path: Path, node: TreeNode, frame: string, weight: nat,
    ghost values: map<Path, nat>)
    returns (child: TreeNode, ghost at': map<Path, TreeNode>, ghost values': map<Path, nat>)
    requires Tree(root, at, values) && path in at && at[path] == node
    modifies at.Values
    ensures Tree(root, at', values') && fresh(at'.Values - at.Values)
    ensures path + [frame] in at' && at'[path + [frame]] == child
    ensures values' == Added(Entered(values, path + [frame]), path + [frame], weight)
  {
    child, at', values' := Enter(root, at, path, node, frame, values);
    values' := AddWeight(root, at', path + [frame], child, weight, values');
  }

  // ----- one stack

  /** `path` is the first `n` frames or fewer. */
  predicate Passed(path: Path, frames: seq<string>, n: nat) {
    |path| <= n <= |frames| && frames[..|path|] == path
  }

  lemma PassedNext(path: Path, frames: seq<string>, n: nat)
    requires n < |frames|
    ensures Passed(path, frames, n + 1) <==> Passed(path, frames, n) || path == frames[..n + 1]
    ensures Passed(frames[..n + 1], frames, n + 1) && !Passed(frames[..n + 1], frames, n)
  {
  }

  lemma PassedAll(path: Path, frames: seq<string>)
    ensures Passed(path, frames, |frames|) <==> path <= frames
  {
  }

  /** The paths are those of before and those passed, and a weight was added to those passed. */
  ghost predicate Weighed(
    before: map<Path, nat>, after: map<Path, nat>, frames: seq<string>, n: nat, weight: nat)
  {
    && (forall p :: p in after <==> p in before || Passed(p, frames, n))
    && (forall p :: p in after ==> after[p] == ValueOr0(before, p) + if Passed(p, frames, n) then weight else 0)
  }

  lemma WeighedRoot(before: map<Path, nat>, frames: seq<string>, weight: nat)
    requires [] in before
    ensures Weighed(before, Added(before, [], weight), frames, 0, weight)
  {
  }

  lemma WeighedNext(before: map<Path, nat>, after: map<Path, nat>, frames: seq<string>, n: nat, weight: nat)
    requires n < |frames| && Weighed(before, after, frames, n, weight)
    ensures var path := frames[..n] + [frames[n]];
      Weighed(before, Added(Entered(after, path), path, weight), frames, n + 1, weight)
  {
    var path := frames[..n] + [frames[n]];
    TakeNext(frames, n);
    forall p
      ensures Passed(p, frames, n + 1) <==> Passed(p, frames, n) || p == path
      ensures Passed(path, frames, n + 1) && !Passed(path, frames, n)
    {
      PassedNext(p, frames, n);
    }
  }

  /** Adds a weight to the root and to each node down a stack's frames. */
  method AddStack(
    root: TreeNode, ghost at: map<Path, TreeNode>, frames: seq<string>, weight: nat, ghost values: map<Path, nat>)
    returns (ghost at': map<Path, TreeNode>, ghost values': map<Path, nat>)
    requires Tree(root, at, values)
    modifies at.Values
    ensures Tree(root, at', values') && fresh(at'.Values - at.Values)
    ensures Weighed(values, values', frames, |frames|, weight)
  {
    at' := at;
    WeighedRoot(values, frames, weight);
    values' := AddWeight(root, at, [], root, weight, values);
    var node, i := root, 0;
    while i < |frames|
      invariant i <= |frames| && Tree(root, at', values') && fresh(at'.Values - at.Values)
      invariant frames[..i] in at' && at'[frames[..i]] == node
      invariant Weighed(values, values', frames, i, weight)
    {
      ghost var path := frames[..i];
      WeighedNext(values, values', frames, i, weight);
      TakeNext(frames, i);
      node, at', values' := Descend(root, at', path, node, frames[i], weight, values');
      i := i + 1;
    }
  }

  // ----- the whole tree

  lemma InsertValues(values: map<Path, nat>, values': map<Path, nat>, tree: FlameNode, frames: seq<string>, weight: nat)
    requires ValuesOf(values, tree) && Weighed(values, values', frames, |frames|, weight)
    ensures ValuesOf(values', Insert(tree, frames, weight))
  {
    forall p: Path
      ensures p in values' <==> NodeAt(Insert(tree, frames, weight), p).Some?
      ensures p in values' ==> values'[p] == ValueAt(Insert(tree, frames, weight), p)
    {
      PassedAll(p, frames);
      InsertNodes(tree, frames, weight, p);
      InsertValue(tree, frames, weight, p);
    }
  }

  function WithStack(tree: FlameNode, w: Weighted): FlameNode {
    if w.weight == 0 then tree else Insert(tree, Frames(w.stack), w.weight)
  }

  lemma BuildNext(stacks: seq<Weighted>, i: nat)
    requires i < |stacks|
    ensures Build(stacks[..i + 1]) == WithStack(Build(stacks[..i]), stacks[i])
  {
    assert stacks[..i + 1][..i] == stacks[..i];
  }

  lemma ValuesAreWeights(values: map<Path, nat>, stacks: seq<Weighted>)
    requires ValuesOf(values, Build(stacks))
    ensures forall p :: p in values ==> values[p] == PrefixWeight(stacks, p)
  {
    forall p | p in values ensures values[p] == PrefixWeight(stacks, p) {
      ValueIsPrefixWeight(stacks, p);
    }
  }

  /** Adds one entry of the folded counter, unless it weighs nothing. */
  method AddWeighted(
    root: TreeNode, ghost at: map<Path, TreeNode>, ghost values: map<Path, nat>, ghost tree: FlameNode, w: Weighted)
    returns (ghost at': map<Path, TreeNode>, ghost values': map<Path, nat>)
    requires Tree(root, at, values) && ValuesOf(values, tree)
    modifies at.Values
    ensures Tree(root, at', values') && fresh(at'.Values - at.Values)
    ensures ValuesOf(values', WithStack(tree, w))
  {
    at', values' := at, values;
    if w.weight != 0 {
      var frames := Frames(w.stack);
      at', values' := AddStack(root, at, frames, w.weight, values);
      InsertValues(values, values', tree, frames, w.weight);
    }
  }

  method NewTree() returns (root: TreeNode, ghost at: map<Path, TreeNode>, ghost values: map<Path, nat>)
    ensures Tree(root, at, values) && fresh(at.Values) && ValuesOf(values, EMPTY_NODE)
  {
    root := new TreeNode();
    at, values := map[[] := root], map[[] := 0];
  }

  /** Builds the tree of the stacks of positive weight. */
  method BuildFlameTree(stacks: seq<Weighted>)
    returns (root: TreeNode, ghost at: map<Path, TreeNode>, ghost values: map<Path, nat>)
    ensures Tree(root, at, values) && ValuesOf(values, Build(stacks))
    ensures forall p :: p in values ==> values[p] == PrefixWeight(stacks, p)
    ensures root.value == PrefixWeight(stacks, [])
  {
    root, at, values := NewTree();
    var i := 0;
    while i < |stacks|
      invariant i <= |stacks| && Tree(root, at, values) && fresh(at.Values)
      invariant ValuesOf(values, Build(stacks[..i]))
    {
      BuildNext(stacks, i);
      at, values := AddWeighted(root, at, values, Build(stacks[..i]), stacks[i]);
      i := i + 1;
    }
    assert stacks[..i] == stacks;
    ValuesAreWeights(values, stacks);
  }
}
