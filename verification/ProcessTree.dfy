/** The breadth-first search of a container's process tree for something to attach to. */
module ProcessTree {
  import opened Words
  import opened TreePaths
  import opened Wrappers

  /** What the system tells of a process: the path to attach to when its own executable embeds SSL, the SSL library it
      has loaded, and its children. */
  datatype Proc = Proc(embedded: Option<string>, library: Option<string>, children: seq<U32>)

  type Procs = U32 -> Proc

  function Target(procs: Procs, pid: U32): Option<string> {
    if procs(pid).embedded.Some? then procs(pid).embedded else procs(pid).library
  }

  /** The process at the end of a path from `root`. */
  function ProcAt(procs: Procs, root: U32, path: Path): Option<U32> {
    if path == [] then Some(root)
    else
      var parent, k := ProcAt(procs, root, path[..|path| - 1]), path[|path| - 1];
      if parent.Some? && k < |procs(parent.value).children| then Some(procs(parent.value).children[k]) else None
  }

  /** The first process in breadth-first order that has a target has this one. */
  ghost predicate Nearest(procs: Procs, root: U32, target: string, path: Path) {
    && ProcAt(procs, root, path).Some? && Target(procs, ProcAt(procs, root, path).value) == Some(target)
    && forall q :: Before(q, path) && ProcAt(procs, root, q).Some? ==> Target(procs, ProcAt(procs, root, q).value).None?
  }

  // ----- the search's state

  /** Entry `i` of the queue stands for the path `paths[i]`. */
  ghost predicate Queued(queue: seq<U32>, paths: seq<Path>, pid: U32, path: Path) {
    |paths| == |queue| && exists i :: 0 <= i < |queue| && queue[i] == pid && AtMost(paths[i], path)
  }

  /** `pid` has been visited, or will be, at the end of this path or one before it. */
  ghost predicate Reached(queue: seq<U32>, paths: seq<Path>, seen: map<U32, Path>, pid: U32, path: Path) {
    (pid in seen && AtMost(seen[pid], path)) || Queued(queue, paths, pid, path)
  }

  /** The queue is in order, spans at most two generations, and of the second holds the children of processes before its
      front; whatever was visited came before. */
  ghost predicate InOrder(procs: Procs, root: U32, queue: seq<U32>, paths: seq<Path>, seen: map<U32, Path>) {
    && |paths| == |queue|
    && (forall i :: 0 <= i < |queue| ==> ProcAt(procs, root, paths[i]) == Some(queue[i]))
    && Sorted(paths)
    && (forall i :: 0 <= i < |queue| ==> IsNear(paths[0], paths[i]))
    && (forall p, i :: p in seen && 0 <= i < |queue| ==> Before(seen[p], paths[i]))
  }

  predicate Sorted(paths: seq<Path>) {
    forall i, j :: 0 <= i < j < |paths| ==> Before(paths[i], paths[j])
  }

  predicate IsNear(front: Path, path: Path) {
    |path| <= |front| || (|path| == |front| + 1 && Before(path[..|front|], front))
  }

  /** What was visited has no target, and its children have been visited or queued. */
  ghost predicate Covered(procs: Procs, root: U32, queue: seq<U32>, paths: seq<Path>, seen: map<U32, Path>) {
    && (forall p :: p in seen ==> Target(procs, p).None?)
    && Reached(queue, paths, seen, root, [])
    && forall p, k :: p in seen && 0 <= k < |procs(p).children| ==>
         Reached(queue, paths, seen, procs(p).children[k], seen[p] + [k])
  }

  ghost predicate Search(procs: Procs, root: U32, queue: seq<U32>, paths: seq<Path>, seen: map<U32, Path>) {
    InOrder(procs, root, queue, paths, seen) && Covered(procs, root, queue, paths, seen)
  }

  lemma StillReached(queue: seq<U32>, paths: seq<Path>, seen: map<U32, Path>, seen': map<U32, Path>, c: U32, path: Path)
    requires |paths| == |queue| && queue != [] && Reached(queue, paths, seen, c, path)
    requires queue[0] in seen' && AtMost(seen'[queue[0]], paths[0])
    requires forall p :: p in seen ==> p in seen' && seen'[p] == seen[p]
    ensures Reached(queue[1..], paths[1..], seen', c, path)
  {
    if !(c in seen && AtMost(seen[c], path)) {
      var i :| 0 <= i < |queue| && queue[i] == c && AtMost(paths[i], path);
      if i > 0 {
        assert queue[1..][i - 1] == c && AtMost(paths[1..][i - 1], path);
      } else {
        BeforeOrders(seen'[c], paths[0], path);
      }
    }
  }

  lemma MoreReached(queue: seq<U32>, paths: seq<Path>, seen: map<U32, Path>, c: U32, path: Path,
                    more: seq<U32>, ps: seq<Path>)
    requires |paths| == |queue| && |ps| == |more| && Reached(queue, paths, seen, c, path)
    ensures Reached(queue + more, paths + ps, seen, c, path)
  {
    if !(c in seen && AtMost(seen[c], path)) {
      var i :| 0 <= i < |queue| && queue[i] == c && AtMost(paths[i], path);
      assert (queue + more)[i] == c && AtMost((paths + ps)[i], path);
    }
  }

  lemma NearToNext(front: Path, next: Path, path: Path)
    requires IsNear(front, path) && IsNear(front, next) && Before(front, next) && AtMost(next, path)
    ensures IsNear(next, path)
  {
    if |path| == |next| + 1 {
      BeforeOrders(path[..|front|], front, next);
    }
  }

  lemma RestInOrder(procs: Procs, root: U32, queue: seq<U32>, paths: seq<Path>, seen: map<U32, Path>)
    requires InOrder(procs, root, queue, paths, seen) && queue != []
    ensures InOrder(procs, root, queue[1..], paths[1..], seen)
  {
    forall i | 0 <= i < |queue| - 1 ensures IsNear(paths[1..][0], paths[1..][i]) {
      NearToNext(paths[0], paths[1], paths[i + 1]);
    }
  }

  /** Popping a process already visited loses nothing. */
  lemma Skip(procs: Procs, root: U32, queue: seq<U32>, paths: seq<Path>, seen: map<U32, Path>)
    requires Search(procs, root, queue, paths, seen) && queue != [] && queue[0] in seen
    ensures Search(procs, root, queue[1..], paths[1..], seen)
  {
    RestInOrder(procs, root, queue, paths, seen);
    forall c: U32, path: Path | Reached(queue, paths, seen, c, path) ensures Reached(queue[1..], paths[1..], seen, c, path) {
      StillReached(queue, paths, seen, seen, c, path);
    }
  }

  /** The paths of a process's children. */
  function ChildPaths(path: Path, n: nat): (r: seq<Path>)
    ensures |r| == n && forall k :: 0 <= k < n ==> r[k] == path + [k]
  {
    seq(n, k requires 0 <= k => path + [k])
  }

  lemma ChildAt(procs: Procs, root: U32, path: Path, k: nat)
    requires ProcAt(procs, root, path).Some? && k < |procs(ProcAt(procs, root, path).value).children|
    ensures ProcAt(procs, root, path + [k]) == Some(procs(ProcAt(procs, root, path).value).children[k])
  {
    assert (path + [k])[..|path|] == path;
  }

  /** A child of the front stands behind everything in the queue. */
  lemma ChildIsLast(front: Path, path: Path, k: nat)
    requires IsNear(front, path)
    ensures Before(path, front + [k])
  {
    if |path| == |front| + 1 {
      assert path == path[..|front|] + [path[|front|]];
      ChildrenOrder(path[..|front|], front, path[|front|], k);
    }
  }

  lemma ChildIsNear(front: Path, next: Path, k: nat)
    requires Before(front, next)
    ensures IsNear(next, front + [k])
  {
    assert (front + [k])[..|front|] == front;
  }

  /** The search after visiting the front of its queue. */
  ghost function Queue'(procs: Procs, queue: seq<U32>): seq<U32>
    requires queue != []
  {
    queue[1..] + procs(queue[0]).children
  }

  ghost function Paths'(procs: Procs, queue: seq<U32>, paths: seq<Path>): (r: seq<Path>)
    requires |paths| == |queue| && queue != []
    ensures |r| == |Queue'(procs, queue)|
    ensures forall i :: 0 <= i < |queue| - 1 ==> r[i] == paths[i + 1]
    ensures forall k :: 0 <= k < |procs(queue[0]).children| ==> r[|queue| - 1 + k] == paths[0] + [k]
  {
    paths[1..] + ChildPaths(paths[0], |procs(queue[0]).children|)
  }

  lemma VisitStands(procs: Procs, root: U32, queue: seq<U32>, paths: seq<Path>, seen: map<U32, Path>, i: nat)
    requires InOrder(procs, root, queue, paths, seen) && queue != [] && i < |Queue'(procs, queue)|
    ensures var path := Paths'(procs, queue, paths)[i];
      && ProcAt(procs, root, path) == Some(Queue'(procs, queue)[i])
      && Before(paths[0], path)
      && (i < |queue| - 1 ==> path == paths[i + 1])
      && (i >= |queue| - 1 ==> path == paths[0] + [i - (|queue| - 1)])
  {
    if i >= |queue| - 1 {
      var k := i - (|queue| - 1);
      ChildAt(procs, root, paths[0], k);
      ChildrenOrder(paths[0], paths[0], k, k);
      assert Paths'(procs, queue, paths)[|queue| - 1 + k] == paths[0] + [k];
    }
  }

  lemma ChildPathsSorted(front: Path, rest: seq<Path>, n: nat)
    requires Sorted(rest) && forall i :: 0 <= i < |rest| ==> IsNear(front, rest[i])
    ensures Sorted(rest + ChildPaths(front, n))
  {
    var children := ChildPaths(front, n);
    var all := rest + children;
    forall i, j | 0 <= i < j < |all| ensures Before(all[i], all[j]) {
      if i < |rest| <= j {
        ChildIsLast(front, rest[i], j - |rest|);
      } else if |rest| <= i {
        ChildrenOrder(front, front, i - |rest|, j - |rest|);
      }
    }
  }

  lemma VisitSorted(procs: Procs, root: U32, queue: seq<U32>, paths: seq<Path>, seen: map<U32, Path>)
    requires InOrder(procs, root, queue, paths, seen) && queue != []
    ensures Sorted(Paths'(procs, queue, paths))
  {
    ChildPathsSorted(paths[0], paths[1..], |procs(queue[0]).children|);
  }

  lemma VisitNear(procs: Procs, root: U32, queue: seq<U32>, paths: seq<Path>, seen: map<U32, Path>, i: nat)
    requires InOrder(procs, root, queue, paths, seen) && queue != [] && i < |Queue'(procs, queue)|
    ensures IsNear(Paths'(procs, queue, paths)[0], Paths'(procs, queue, paths)[i])
  {
    VisitStands(procs, root, queue, paths, seen, 0);
    VisitStands(procs, root, queue, paths, seen, i);
    var next := Paths'(procs, queue, paths)[0];
    VisitSorted(procs, root, queue, paths, seen);
    if i < |queue| - 1 {
      NearToNext(paths[0], next, paths[i + 1]);
    } else {
      ChildIsNear(paths[0], next, i - (|queue| - 1));
    }
  }

  lemma VisitInOrder(procs: Procs, root: U32, queue: seq<U32>, paths: seq<Path>, seen: map<U32, Path>)
    requires InOrder(procs, root, queue, paths, seen) && queue != []
    ensures InOrder(procs, root, Queue'(procs, queue), Paths'(procs, queue, paths), seen[queue[0] := paths[0]])
  {
    var queue', paths', seen' := Queue'(procs, queue), Paths'(procs, queue, paths), seen[queue[0] := paths[0]];
    forall i | 0 <= i < |queue'| ensures ProcAt(procs, root, paths'[i]) == Some(queue'[i]) && IsNear(paths'[0], paths'[i]) {
      VisitStands(procs, root, queue, paths, seen, i);
      VisitNear(procs, root, queue, paths, seen, i);
    }
    VisitSorted(procs, root, queue, paths, seen);
    forall p, i | p in seen' && 0 <= i < |queue'| ensures Before(seen'[p], paths'[i]) {
      VisitStands(procs, root, queue, paths, seen, i);
      BeforeOrders(seen'[p], paths[0], paths'[i]);
    }
  }

  lemma VisitReaches(procs: Procs, queue: seq<U32>, paths: seq<Path>, seen: map<U32, Path>, c: U32, path: Path)
    requires |paths| == |queue| && queue != [] && queue[0] !in seen
    requires Reached(queue, paths, seen, c, path)
      || exists k :: 0 <= k < |procs(queue[0]).children| && c == procs(queue[0]).children[k] && path == paths[0] + [k]
    ensures Reached(Queue'(procs, queue), Paths'(procs, queue, paths), seen[queue[0] := paths[0]], c, path)
  {
    var children, seen' := procs(queue[0]).children, seen[queue[0] := paths[0]];
    if Reached(queue, paths, seen, c, path) {
      StillReached(queue, paths, seen, seen', c, path);
      MoreReached(queue[1..], paths[1..], seen', c, path, children, ChildPaths(paths[0], |children|));
    } else {
      var k :| 0 <= k < |children| && c == children[k] && path == paths[0] + [k];
      ChildIsQueued(procs, queue, paths, k);
    }
  }

  lemma ChildIsQueued(procs: Procs, queue: seq<U32>, paths: seq<Path>, k: nat)
    requires |paths| == |queue| && queue != [] && k < |procs(queue[0]).children|
    ensures Queued(Queue'(procs, queue), Paths'(procs, queue, paths), procs(queue[0]).children[k], paths[0] + [k])
  {
    var i := |queue| - 1 + k;
    assert Queue'(procs, queue)[i] == procs(queue[0]).children[k];
    assert AtMost(Paths'(procs, queue, paths)[i], paths[0] + [k]);
  }

  /** Visiting a process without a target and queueing its children keeps the search on course. */
  lemma Visit(procs: Procs, root: U32, queue: seq<U32>, paths: seq<Path>, seen: map<U32, Path>)
    requires Search(procs, root, queue, paths, seen) && queue != [] && queue[0] !in seen
    requires Target(procs, queue[0]).None?
    ensures Search(procs, root, Queue'(procs, queue), Paths'(procs, queue, paths), seen[queue[0] := paths[0]])
  {
    var seen' := seen[queue[0] := paths[0]];
    VisitInOrder(procs, root, queue, paths, seen);
    VisitReaches(procs, queue, paths, seen, root, []);
    forall p, k | p in seen' && 0 <= k < |procs(p).children|
      ensures Reached(Queue'(procs, queue), Paths'(procs, queue, paths), seen', procs(p).children[k], seen'[p] + [k])
    {
      VisitReaches(procs, queue, paths, seen, procs(p).children[k], seen'[p] + [k]);
    }
  }

  lemma ReachedLater(queue: seq<U32>, paths: seq<Path>, seen: map<U32, Path>, pid: U32, path: Path, later: Path)
    requires Reached(queue, paths, seen, pid, path) && AtMost(path, later)
    ensures Reached(queue, paths, seen, pid, later)
  {
    if pid in seen && AtMost(seen[pid], path) {
      BeforeOrders(seen[pid], path, later);
    } else {
      var i :| 0 <= i < |queue| && queue[i] == pid && AtMost(paths[i], path);
      BeforeOrders(paths[i], path, later);
    }
  }

  /** Nothing in the queue stands before its front. */
  lemma NotQueuedBefore(procs: Procs, root: U32, queue: seq<U32>, paths: seq<Path>, seen: map<U32, Path>, pid: U32, path: Path)
    requires InOrder(procs, root, queue, paths, seen) && Queued(queue, paths, pid, path)
    ensures AtMost(paths[0], path)
  {
    var i :| 0 <= i < |queue| && queue[i] == pid && AtMost(paths[i], path);
    BeforeOrders(paths[0], paths[i], path);
  }

  /** Every process at the end of a path not after the queue's front has been visited or is queued. */
  lemma {:induction false} AllReached(procs: Procs, root: U32, queue: seq<U32>, paths: seq<Path>, seen: map<U32, Path>, path: Path)
    requires Search(procs, root, queue, paths, seen) && ProcAt(procs, root, path).Some?
    requires queue != [] ==> AtMost(path, paths[0])
    ensures Reached(queue, paths, seen, ProcAt(procs, root, path).value, path)
    decreases |path|
  {
    if path != [] {
      var init, k := path[..|path| - 1], path[|path| - 1];
      var parent := ProcAt(procs, root, init).value;
      assert path == init + [k];
      ChildrenOrder(init, init, k, k);
      if queue != [] {
        BeforeOrders(init, path, paths[0]);
      }
      AllReached(procs, root, queue, paths, seen, init);
      ParentIsSeen(procs, root, queue, paths, seen, parent, init, path);
      ChildrenOrder(seen[parent], init, k, k);
      assert Reached(queue, paths, seen, procs(parent).children[k], seen[parent] + [k]);
      ReachedLater(queue, paths, seen, procs(parent).children[k], seen[parent] + [k], path);
    }
  }

  lemma ParentIsSeen(procs: Procs, root: U32, queue: seq<U32>, paths: seq<Path>, seen: map<U32, Path>,
                     parent: U32, init: Path, path: Path)
    requires InOrder(procs, root, queue, paths, seen) && Reached(queue, paths, seen, parent, init)
    requires Before(init, path) && (queue != [] ==> AtMost(path, paths[0]))
    ensures parent in seen && AtMost(seen[parent], init)
  {
    if Queued(queue, paths, parent, init) {
      NotQueuedBefore(procs, root, queue, paths, seen, parent, init);
      BeforeOrders(init, path, paths[0]);
      BeforeOrders(init, paths[0], init);
    }
  }

  lemma FrontIsNearest(procs: Procs, root: U32, queue: seq<U32>, paths: seq<Path>, seen: map<U32, Path>)
    requires Search(procs, root, queue, paths, seen) && queue != [] && Target(procs, queue[0]).Some?
    ensures Nearest(procs, root, Target(procs, queue[0]).value, paths[0])
  {
    forall q | Before(q, paths[0]) && ProcAt(procs, root, q).Some?
      ensures Target(procs, ProcAt(procs, root, q).value).None?
    {
      var pid := ProcAt(procs, root, q).value;
      AllReached(procs, root, queue, paths, seen, q);
      if Queued(queue, paths, pid, q) {
        NotQueuedBefore(procs, root, queue, paths, seen, pid, q);
        BeforeOrders(q, paths[0], q);
      }
    }
  }

  lemma Start(procs: Procs, root: U32)
    ensures Search(procs, root, [root], [[]], map[])
  {
    assert [root][0] == root && AtMost([[]][0], []);
    assert Queued([root], [[]], root, []);
  }

  predicate IsPid(p: int) {
    0 <= p <= U32_MAX
  }

  /** The target returned is that of the first process in breadth-first order that has one, at some path from the root;
      without one, no process at any path has a target. The search ends even when the parent relation read from the
      system has cycles. */
  method FindSslTargetInTree(procs: Procs, root: U32) returns (target: Option<string>)
    ensures target.Some? ==> exists path: Path :: Nearest(procs, root, target.value, path)
    ensures target.None? ==>
      forall path: Path :: ProcAt(procs, root, path).Some? ==> Target(procs, ProcAt(procs, root, path).value).None?
  {
    var queue: seq<U32> := [root];
    var seen: set<U32> := {};
    ghost var paths: seq<Path>, visited: map<U32, Path> := [[]], map[];
    Start(procs, root);
    ghost var all := set p: U32 | 0 <= p < 0x1_0000_0000 && IsPid(p);
    while queue != []
      invariant Search(procs, root, queue, paths, visited) && visited.Keys == seen
      decreases all - seen, |queue|
    {
      var pid := queue[0];
      ghost var q := queue;
      queue := queue[1..];
      if pid in seen {
        Skip(procs, root, q, paths, visited);
        paths := paths[1..];
        continue;
      }
      seen := seen + {pid};
      if procs(pid).embedded.Some? {
        FrontIsNearest(procs, root, q, paths, visited);
        return procs(pid).embedded;
      }
      if procs(pid).library.Some? {
        FrontIsNearest(procs, root, q, paths, visited);
        return procs(pid).library;
      }
      Visit(procs, root, q, paths, visited);
      visited, paths := visited[pid := paths[0]], Paths'(procs, q, paths);
      var children := procs(pid).children;
      queue := queue + children;
      assert IsPid(pid) && pid in all;
    }
    forall path: Path | ProcAt(procs, root, path).Some? ensures Target(procs, ProcAt(procs, root, path).value).None? {
      AllReached(procs, root, queue, paths, visited, path);
    }
    return None;
  }
}
