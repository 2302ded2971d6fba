/** Matching agent sessions to live processes: first by file evidence or a remembered binding, then greedily by
    working directory and closeness in time. */
module SessionMatcher {
  import opened Wrappers
  import opened Words
  import opened SessionEvidence

  const NO_MATCHES := Matches(map[], map[], {})

  // ----- the pieces

  function RetainLive(b: Bindings, processes: seq<Process>): (r: Bindings)
    ensures forall pid :: pid in r <==> pid in b && LiveRoot(processes, ProcessKey(pid, b[pid].start))
    ensures forall pid :: pid in r ==> r[pid] == b[pid]
  {
    map pid | pid in b && LiveRoot(processes, ProcessKey(pid, b[pid].start)) :: b[pid]
  }

  predicate LiveRoot(processes: seq<Process>, key: ProcessKey) {
    exists p :: p in processes && p.root == key
  }

  function LinkTrace(b: Bindings, path: Path, p: Process, e: PathEvidence): (Bindings, Option<Evidence>) {
    var pid := p.root.pid;
    if pid in e then
      if path in e[pid] then (b[pid := Binding(p.root.start, path)], Some(e[pid][path])) else (b - {pid}, None)
    else if pid in b && b[pid] == Binding(p.root.start, path) then (b, Some(StickyBinding))
    else (b, None)
  }

  predicate CanUseCwdTrace(b: Bindings, path: Path, p: Process, e: PathEvidence) {
    && p.root.pid !in e
    && !(p.root.pid in b && b[p.root.pid].start == p.root.start && b[p.root.pid].path != path)
  }

  function PidsOf(members: seq<ProcessKey>): (r: seq<nat>)
    ensures |r| == |members|
  {
    seq(|members|, i requires 0 <= i < |members| => members[i].pid)
  }

  function MatchOf(s: Session, p: Process, evidence: Evidence): Match {
    Match(s.id, p.root.pid, PidsOf(p.members), p.root.start, evidence)
  }

  function RecordMatch(out: Matches, s: Session, p: Process, evidence: Evidence): Matches {
    Matches(out.bySession[s.id := MatchOf(s, p, evidence)],
            out.byPid + (map pid | pid in PidsOf(p.members) :: s.id),
            out.usedRoots + {p.root.pid})
  }

  // ----- first phase: files and bindings

  /** The first process from index `i` on that links to the session; every process tried may change the bindings. */
  function FindLinked(c: Call, e: PathEvidence, b: Bindings, used: set<nat>, s: Session, i: nat)
    : (r: (Bindings, Option<(Process, Evidence)>))
    requires i <= |c.processes|
    ensures r.1.Some? ==> r.1.value.0 in c.processes && r.1.value.0.root.pid !in used
    decreases |c.processes| - i
  {
    if i == |c.processes| then (b, None)
    else
      var p := c.processes[i];
      if p.root.pid in used || p.agent != s.agent || !FreshEnough(s, p, c.now) then FindLinked(c, e, b, used, s, i + 1)
      else
        var (b1, evidence) := LinkTrace(b, c.norm(s.path), p, e);
        if evidence.Some? then (b1, Some((p, evidence.value))) else FindLinked(c, e, b1, used, s, i + 1)
  }

  function LinkSession(c: Call, e: PathEvidence, b: Bindings, out: Matches, s: Session): (Bindings, Matches) {
    var (b1, found) := FindLinked(c, e, b, out.usedRoots, s, 0);
    match found
    case None => (b1, out)
    case Some(link) => (b1, RecordMatch(out, s, link.0, link.1))
  }

  /** The first phase after the first `n` sessions. */
  function Link(c: Call, e: PathEvidence, b: Bindings, n: nat): (Bindings, Matches)
    requires n <= |c.sessions|
  {
    if n == 0 then (b, NO_MATCHES)
    else
      var (b1, out) := Link(c, e, b, n - 1);
      LinkSession(c, e, b1, out, c.sessions[n - 1])
  }

  // ----- second phase: working directory and time

  /** A candidate pair; the order of the fields is the order of the greedy choice, later session ends first. */
  datatype Candidate = Candidate(distance: U64, end: U64, session: nat, process: nat)

  predicate Before(x: Candidate, y: Candidate) {
    if x.distance != y.distance then x.distance < y.distance
    else if x.end != y.end then x.end > y.end
    else if x.session != y.session then x.session < y.session
    else x.process < y.process
  }

  predicate InRange(c: Call, x: Candidate) {
    x.session < |c.sessions| && x.process < |c.processes|
  }

  /** The pair may be matched by working directory, both sides being free after the first phase. */
  predicate Eligible(c: Call, e: PathEvidence, b: Bindings, out: Matches, i: nat, j: nat)
    requires i < |c.sessions| && j < |c.processes|
  {
    var s, p := c.sessions[i], c.processes[j];
    && s.id !in out.bySession
    && p.root.pid !in out.usedRoots
    && p.agent == s.agent
    && CanUseCwdTrace(b, c.norm(s.path), p, e)
    && RecentCwdDistance(s, p, c.now).Some?
  }

  function CandidateOf(c: Call, i: nat, j: nat): Candidate
    requires i < |c.sessions| && j < |c.processes| && RecentCwdDistance(c.sessions[i], c.processes[j], c.now).Some?
  {
    Candidate(RecentCwdDistance(c.sessions[i], c.processes[j], c.now).value, SessionEndMs(c.sessions[i]), i, j)
  }

  /** The candidates of session `i` among the first `m` processes, and of the first `n` sessions. */
  function Row(c: Call, e: PathEvidence, b: Bindings, out: Matches, i: nat, m: nat): seq<Candidate>
    requires i < |c.sessions| && m <= |c.processes|
  {
    if m == 0 then []
    else Row(c, e, b, out, i, m - 1) + if Eligible(c, e, b, out, i, m - 1) then [CandidateOf(c, i, m - 1)] else []
  }

  function Candidates(c: Call, e: PathEvidence, b: Bindings, out: Matches, n: nat): seq<Candidate>
    requires n <= |c.sessions|
  {
    if n == 0 then [] else Candidates(c, e, b, out, n - 1) + Row(c, e, b, out, n - 1, |c.processes|)
  }

  /** The library sort of the candidates, as insertion. */
  function Insert(x: Candidate, xs: seq<Candidate>): seq<Candidate> {
    if xs == [] then [x] else if Before(xs[0], x) then [xs[0]] + Insert(x, xs[1..]) else [x] + xs
  }

  function Sort(xs: seq<Candidate>): seq<Candidate> {
    if xs == [] then [] else Insert(xs[0], Sort(xs[1..]))
  }

  function Greedy(c: Call, xs: seq<Candidate>, out: Matches): Matches {
    if xs == [] then out
    else Greedy(c, xs[1..], Take(c, xs[0], out))
  }

  predicate Free(c: Call, x: Candidate, out: Matches) {
    && InRange(c, x)
    && c.sessions[x.session].id !in out.bySession
    && c.processes[x.process].root.pid !in out.usedRoots
  }

  function Take(c: Call, x: Candidate, out: Matches): Matches {
    if Free(c, x, out) then RecordMatch(out, c.sessions[x.session], c.processes[x.process], RecentCwd) else out
  }

  // ----- one call

  function MatchSessions(c: Call, b: Bindings): (Bindings, Matches) {
    var e := Collect(c, c.processes);
    var (b1, out1) := Link(c, e, RetainLive(b, c.processes), |c.sessions|);
    (b1, Greedy(c, Sort(Candidates(c, e, b1, out1, |c.sessions|)), out1))
  }

  // ----- the sort

  lemma BeforeTotal(x: Candidate, y: Candidate, z: Candidate)
    ensures Before(x, y) || Before(y, x) || x == y
    ensures !(Before(x, y) && Before(y, x)) && !Before(x, x)
    ensures Before(x, y) && Before(y, z) ==> Before(x, z)
  {
  }

  ghost predicate Sorted(xs: seq<Candidate>) {
    forall i, j :: 0 <= i < j < |xs| ==> !Before(xs[j], xs[i])
  }

  lemma ConsSorts(x: Candidate, xs: seq<Candidate>)
    requires Sorted(xs) && forall k :: 0 <= k < |xs| ==> !Before(xs[k], x)
    ensures Sorted([x] + xs)
  {
  }

  lemma HeadIsLeast(x: Candidate, xs: seq<Candidate>, k: nat)
    requires Sorted(xs) && k < |xs| && !Before(xs[0], x)
    ensures !Before(xs[k], x)
  {
    BeforeTotal(xs[k], x, xs[0]);
    BeforeTotal(x, xs[0], xs[k]);
    BeforeTotal(xs[0], xs[k], x);
  }

  lemma {:induction false} InsertAdds(x: Candidate, xs: seq<Candidate>)
    ensures multiset(Insert(x, xs)) == multiset(xs) + multiset{x}
  {
    if xs != [] {
      assert xs == [xs[0]] + xs[1..];
      InsertAdds(x, xs[1..]);
    }
  }

  lemma InsertMember(x: Candidate, xs: seq<Candidate>, y: Candidate)
    requires y in Insert(x, xs)
    ensures y == x || y in xs
  {
    InsertAdds(x, xs);
    assert y in multiset(Insert(x, xs));
  }

  lemma {:induction false} InsertSorts(x: Candidate, xs: seq<Candidate>)
    requires Sorted(xs)
    ensures Sorted(Insert(x, xs))
  {
    if xs != [] && Before(xs[0], x) {
      InsertSorts(x, xs[1..]);
      var r := Insert(x, xs[1..]);
      BeforeTotal(xs[0], x, x);
      forall k | 0 <= k < |r| ensures !Before(r[k], xs[0]) {
        InsertMember(x, xs[1..], r[k]);
      }
      ConsSorts(xs[0], r);
    } else {
      forall k | 0 <= k < |xs| ensures !Before(xs[k], x) {
        HeadIsLeast(x, xs, k);
      }
      ConsSorts(x, xs);
    }
  }

  lemma {:induction false} SortSorts(xs: seq<Candidate>)
    ensures Sorted(Sort(xs)) && multiset(Sort(xs)) == multiset(xs)
  {
    if xs != [] {
      SortSorts(xs[1..]);
      InsertSorts(xs[0], Sort(xs[1..]));
      InsertAdds(xs[0], Sort(xs[1..]));
      assert xs == [xs[0]] + xs[1..];
    }
  }

  // ----- the candidates are exactly the eligible pairs

  lemma {:induction false} RowMembers(c: Call, e: PathEvidence, b: Bindings, out: Matches, i: nat, m: nat, x: Candidate)
    requires i < |c.sessions| && m <= |c.processes|
    ensures x in Row(c, e, b, out, i, m) <==>
      x.session == i && x.process < m && Eligible(c, e, b, out, i, x.process) && x == CandidateOf(c, i, x.process)
  {
    if m > 0 {
      RowMembers(c, e, b, out, i, m - 1, x);
    }
  }

  ghost predicate IsCandidate(c: Call, e: PathEvidence, b: Bindings, out: Matches, x: Candidate) {
    InRange(c, x) && Eligible(c, e, b, out, x.session, x.process) && x == CandidateOf(c, x.session, x.process)
  }

  lemma {:induction false} CandidateMembers(c: Call, e: PathEvidence, b: Bindings, out: Matches, n: nat, x: Candidate)
    requires n <= |c.sessions|
    ensures x in Candidates(c, e, b, out, n) <==> x.session < n && IsCandidate(c, e, b, out, x)
  {
    if n > 0 {
      CandidateMembers(c, e, b, out, n - 1, x);
      RowMembers(c, e, b, out, n - 1, |c.processes|, x);
    }
  }

  // ----- the greedy choice

  /** The candidate was chosen: its session is recorded as matched to its process, by working directory. */
  ghost predicate Chosen(c: Call, x: Candidate, out: Matches) {
    && InRange(c, x)
    && c.sessions[x.session].id in out.bySession
    && out.bySession[c.sessions[x.session].id] == MatchOf(c.sessions[x.session], c.processes[x.process], RecentCwd)
  }

  /** Two candidates compete for a session id or a root pid. */
  predicate Compete(c: Call, x: Candidate, y: Candidate) {
    && InRange(c, x) && InRange(c, y)
    && ( || c.sessions[x.session].id == c.sessions[y.session].id
         || c.processes[x.process].root.pid == c.processes[y.process].root.pid)
  }

  lemma {:induction false} GreedyKeeps(c: Call, xs: seq<Candidate>, out: Matches)
    ensures var out' := Greedy(c, xs, out);
      && (forall id :: id in out.bySession ==> id in out'.bySession && out'.bySession[id] == out.bySession[id])
      && out.usedRoots <= out'.usedRoots
  {
    if xs != [] {
      GreedyKeeps(c, xs[1..], Take(c, xs[0], out));
    }
  }

  /** Every candidate that was free at the start is chosen, or lost its session or root to one chosen before it. */
  lemma {:induction false} GreedyChoosesOrBlocks(c: Call, xs: seq<Candidate>, out: Matches, k: nat)
    requires k < |xs| && Free(c, xs[k], out)
    ensures var out' := Greedy(c, xs, out);
      Chosen(c, xs[k], out') || exists j :: 0 <= j < k && Compete(c, xs[j], xs[k]) && Chosen(c, xs[j], out')
  {
    var out1 := Take(c, xs[0], out);
    GreedyKeeps(c, xs[1..], out1);
    if k > 0 {
      if Free(c, xs[k], out1) {
        GreedyChoosesOrBlocks(c, xs[1..], out1, k - 1);
        if !Chosen(c, xs[k], Greedy(c, xs, out)) {
          var j :| 0 <= j < k - 1 && Compete(c, xs[1..][j], xs[1..][k - 1]) && Chosen(c, xs[1..][j], Greedy(c, xs[1..], out1));
          assert xs[j + 1] == xs[1..][j];
        }
      } else {
        assert Free(c, xs[0], out) && Compete(c, xs[0], xs[k]);
        assert Chosen(c, xs[0], Greedy(c, xs, out));
      }
    }
  }

  /** The eligible pair `y` comes before `x`, was chosen, and has taken its session or its root. */
  ghost predicate Blocks(c: Call, e: PathEvidence, b: Bindings, out: Matches, y: Candidate, x: Candidate, final: Matches) {
    IsCandidate(c, e, b, out, y) && Before(y, x) && Compete(c, y, x) && Chosen(c, y, final)
  }

  lemma SortedMember(c: Call, e: PathEvidence, b: Bindings, out: Matches, x: Candidate)
    ensures x in Sort(Candidates(c, e, b, out, |c.sessions|)) <==> IsCandidate(c, e, b, out, x)
  {
    var cands := Candidates(c, e, b, out, |c.sessions|);
    CandidateMembers(c, e, b, out, |c.sessions|, x);
    SortSorts(cands);
    assert x in cands <==> x in multiset(cands);
    assert x in Sort(cands) <==> x in multiset(Sort(cands));
  }

  lemma SortedBefore(xs: seq<Candidate>, m: nat, k: nat)
    requires Sorted(xs) && m < k < |xs| && xs[m] != xs[k]
    ensures Before(xs[m], xs[k])
  {
    BeforeTotal(xs[m], xs[k], xs[k]);
  }

  /** An eligible pair is chosen, or one of its sides is taken by an eligible pair that comes before it. */
  lemma StableAt(c: Call, e: PathEvidence, b: Bindings, out: Matches, i: nat, j: nat)
    requires i < |c.sessions| && j < |c.processes| && Eligible(c, e, b, out, i, j)
    ensures var final := Greedy(c, Sort(Candidates(c, e, b, out, |c.sessions|)), out);
      var x := CandidateOf(c, i, j);
      Chosen(c, x, final) || exists y :: Blocks(c, e, b, out, y, x, final)
  {
    var xs, x := Sort(Candidates(c, e, b, out, |c.sessions|)), CandidateOf(c, i, j);
    SortedMember(c, e, b, out, x);
    var k :| 0 <= k < |xs| && xs[k] == x;
    GreedyChoosesOrBlocks(c, xs, out, k);
    if !Chosen(c, x, Greedy(c, xs, out)) {
      var m :| 0 <= m < k && Compete(c, xs[m], xs[k]) && Chosen(c, xs[m], Greedy(c, xs, out));
      SortedMember(c, e, b, out, xs[m]);
      SortSorts(Candidates(c, e, b, out, |c.sessions|));
      SortedBefore(xs, m, k);
      assert Blocks(c, e, b, out, xs[m], x, Greedy(c, xs, out));
    }
  }

  /** The working-directory phase is a stable greedy matching: a pair that is eligible after the first phase is
      matched, or its session or its root pid is matched, by working directory too, through an eligible pair that
      comes before it in the order (distance, latest end, session, process). So no eligible pair is left with both
      sides free. */
  lemma CwdPhaseIsStable(c: Call, b0: Bindings, e: PathEvidence, b: Bindings, out: Matches, i: nat, j: nat)
    requires e == Collect(c, c.processes) && (b, out) == Link(c, e, RetainLive(b0, c.processes), |c.sessions|)
    requires i < |c.sessions| && j < |c.processes| && Eligible(c, e, b, out, i, j)
    ensures var final, x := MatchSessions(c, b0).1, CandidateOf(c, i, j);
      Chosen(c, x, final) || exists y :: Blocks(c, e, b, out, y, x, final)
  {
    StableAt(c, e, b, out, i, j);
  }

  // ----- every match is explained, and no root is matched twice

  /** Why a match may be in the answer to call `c`, entered with live bindings `b0`: file evidence decides whenever
      the root has any; without it a sticky verdict repeats the remembered binding. */
  ghost predicate Explained(c: Call, e: PathEvidence, b0: Bindings, m: Match) {
    exists s, p :: s in c.sessions && p in c.processes && Explains(c, e, b0, m, s, p)
  }

  ghost predicate Explains(c: Call, e: PathEvidence, b0: Bindings, m: Match, s: Session, p: Process) {
    && s.agent == p.agent
    && m == MatchOf(s, p, m.evidence)
    && (m.rootPid in e ==> c.norm(s.path) in e[m.rootPid] && m.evidence == e[m.rootPid][c.norm(s.path)])
    && (m.rootPid !in e ==>
          if m.evidence.StickyBinding? then m.rootPid in b0 && b0[m.rootPid] == Binding(m.start, c.norm(s.path))
          else m.evidence.RecentCwd? && RecentCwdDistance(s, p, c.now).Some?)
  }

  ghost predicate MatchesOk(c: Call, e: PathEvidence, b0: Bindings, out: Matches) {
    && (forall id :: id in out.bySession ==>
          && out.bySession[id].sessionId == id
          && out.bySession[id].rootPid in out.usedRoots
          && Explained(c, e, b0, out.bySession[id]))
    && (forall x, y :: x in out.bySession && y in out.bySession && x != y ==>
          out.bySession[x].rootPid != out.bySession[y].rootPid)
    && (forall pid :: pid in out.byPid ==> out.byPid[pid] in out.bySession)
  }

  lemma RecordOk(c: Call, e: PathEvidence, b0: Bindings, out: Matches, s: Session, p: Process, evidence: Evidence)
    requires MatchesOk(c, e, b0, out) && p.root.pid !in out.usedRoots
    requires s in c.sessions && p in c.processes && Explains(c, e, b0, MatchOf(s, p, evidence), s, p)
    ensures MatchesOk(c, e, b0, RecordMatch(out, s, p, evidence))
  {
    var out' := RecordMatch(out, s, p, evidence);
    assert Explained(c, e, b0, MatchOf(s, p, evidence));
    forall pid | pid in out'.byPid ensures out'.byPid[pid] in out'.bySession {
      assert pid in PidsOf(p.members) || pid in out.byPid;
    }
  }

  /** How the first phase changes bindings: not at all for roots without file evidence; otherwise to one that the
      files of this call support. */
  ghost predicate BindStep(c: Call, e: PathEvidence, b: Bindings, b': Bindings) {
    && (forall pid :: pid !in e ==> (pid in b <==> pid in b') && (pid in b ==> b'[pid] == b[pid]))
    && (forall pid :: pid in e && pid in b' ==> (pid in b && b'[pid] == b[pid]) || FileBound(c, e, pid, b'[pid]))
  }

  ghost predicate FileBound(c: Call, e: PathEvidence, pid: nat, bound: Binding) {
    pid in e && bound.path in e[pid] && LiveRoot(c.processes, ProcessKey(pid, bound.start))
  }

  lemma LinkTraceStep(c: Call, e: PathEvidence, b: Bindings, path: Path, p: Process)
    requires p in c.processes
    ensures BindStep(c, e, b, LinkTrace(b, path, p, e).0)
  {
    assert LiveRoot(c.processes, p.root);
  }

  lemma BindStepTransitive(c: Call, e: PathEvidence, b: Bindings, b1: Bindings, b2: Bindings)
    requires BindStep(c, e, b, b1) && BindStep(c, e, b1, b2)
    ensures BindStep(c, e, b, b2)
  {
  }

  lemma {:induction false} FindLinkedExplains(c: Call, e: PathEvidence, b0: Bindings, b: Bindings, used: set<nat>, s: Session, i: nat)
    requires i <= |c.processes| && s in c.sessions && BindStep(c, e, b0, b)
    ensures var (b', found) := FindLinked(c, e, b, used, s, i);
      && BindStep(c, e, b0, b')
      && (found.Some? ==> Explains(c, e, b0, MatchOf(s, found.value.0, found.value.1), s, found.value.0))
    decreases |c.processes| - i
  {
    if i < |c.processes| {
      var p := c.processes[i];
      if p.root.pid in used || p.agent != s.agent || !FreshEnough(s, p, c.now) {
        FindLinkedExplains(c, e, b0, b, used, s, i + 1);
      } else {
        var (b1, evidence) := LinkTrace(b, c.norm(s.path), p, e);
        LinkTraceStep(c, e, b, c.norm(s.path), p);
        BindStepTransitive(c, e, b0, b, b1);
        if evidence == None {
          FindLinkedExplains(c, e, b0, b1, used, s, i + 1);
        }
      }
    }
  }

  lemma {:induction false} LinkOk(c: Call, e: PathEvidence, b0: Bindings, n: nat)
    requires n <= |c.sessions|
    ensures var (b, out) := Link(c, e, b0, n); BindStep(c, e, b0, b) && MatchesOk(c, e, b0, out)
  {
    if n > 0 {
      LinkOk(c, e, b0, n - 1);
      var (b, out) := Link(c, e, b0, n - 1);
      var s := c.sessions[n - 1];
      FindLinkedExplains(c, e, b0, b, out.usedRoots, s, 0);
      var (b1, found) := FindLinked(c, e, b, out.usedRoots, s, 0);
      if found.Some? {
        RecordOk(c, e, b0, out, s, found.value.0, found.value.1);
      }
    }
  }

  lemma {:induction false} GreedyOk(c: Call, e: PathEvidence, b0: Bindings, b: Bindings, out0: Matches,
                                    xs: seq<Candidate>, out: Matches)
    requires MatchesOk(c, e, b0, out)
    requires forall x :: x in xs ==> IsCandidate(c, e, b, out0, x)
    ensures MatchesOk(c, e, b0, Greedy(c, xs, out))
  {
    if xs != [] {
      var x := xs[0];
      assert IsCandidate(c, e, b, out0, x);
      if Free(c, x, out) {
        RecordOk(c, e, b0, out, c.sessions[x.session], c.processes[x.process], RecentCwd);
      }
      GreedyOk(c, e, b0, b, out0, xs[1..], Take(c, x, out));
    }
  }

  /** Every match in an answer is explained -- a root with any file evidence only by a session whose path is in that
      evidence -- and two sessions never share a root pid. */
  lemma AnswersAreExplained(c: Call, b: Bindings)
    ensures MatchesOk(c, Collect(c, c.processes), RetainLive(b, c.processes), MatchSessions(c, b).1)
  {
    var e, b0 := Collect(c, c.processes), RetainLive(b, c.processes);
    LinkOk(c, e, b0, |c.sessions|);
    var (b1, out) := Link(c, e, b0, |c.sessions|);
    var cands := Candidates(c, e, b1, out, |c.sessions|);
    forall x | x in Sort(cands) ensures IsCandidate(c, e, b1, out, x) {
      SortedMember(c, e, b1, out, x);
    }
    GreedyOk(c, e, b0, b1, out, Sort(cands), out);
  }

  // ----- histories of calls

  function RunBindings(calls: seq<Call>): Bindings {
    if calls == [] then map[]
    else MatchSessions(calls[|calls| - 1], RunBindings(calls[..|calls| - 1])).0
  }

  /** Some call had file evidence for exactly this root and path, and the root was live from that call on. */
  ghost predicate Grounded(calls: seq<Call>, pid: nat, bound: Binding) {
    exists m :: 0 <= m < |calls| && GroundedAt(calls, pid, bound, m)
  }

  ghost predicate GroundedAt(calls: seq<Call>, pid: nat, bound: Binding, m: nat)
    requires m < |calls|
  {
    && FileBound(calls[m], Collect(calls[m], calls[m].processes), pid, bound)
    && LiveSince(calls, ProcessKey(pid, bound.start), m)
  }

  ghost predicate LiveSince(calls: seq<Call>, root: ProcessKey, m: nat) {
    forall k :: m <= k < |calls| ==> LiveRoot(calls[k].processes, root)
  }

  lemma LiveSinceLasts(init: seq<Call>, c: Call, root: ProcessKey, m: nat)
    requires LiveSince(init, root, m) && LiveRoot(c.processes, root)
    ensures LiveSince(init + [c], root, m)
  {
  }

  lemma GroundedAtLasts(init: seq<Call>, c: Call, pid: nat, bound: Binding, m: nat)
    requires m < |init| && GroundedAt(init, pid, bound, m) && LiveRoot(c.processes, ProcessKey(pid, bound.start))
    ensures GroundedAt(init + [c], pid, bound, m)
  {
    assert (init + [c])[m] == init[m];
    LiveSinceLasts(init, c, ProcessKey(pid, bound.start), m);
  }

  lemma GroundedLasts(init: seq<Call>, c: Call, pid: nat, bound: Binding)
    requires Grounded(init, pid, bound) && LiveRoot(c.processes, ProcessKey(pid, bound.start))
    ensures Grounded(init + [c], pid, bound)
  {
    var m :| 0 <= m < |init| && GroundedAt(init, pid, bound, m);
    GroundedAtLasts(init, c, pid, bound, m);
  }

  lemma {:induction false} BindingsAreGrounded(calls: seq<Call>)
    ensures forall pid :: pid in RunBindings(calls) ==> Grounded(calls, pid, RunBindings(calls)[pid])
  {
    if calls != [] {
      var init, c := calls[..|calls| - 1], calls[|calls| - 1];
      BindingsAreGrounded(init);
      assert calls == init + [c];
      var e, b0 := Collect(c, c.processes), RetainLive(RunBindings(init), c.processes);
      LinkOk(c, e, b0, |c.sessions|);
      var b := RunBindings(calls);
      forall pid | pid in b ensures Grounded(calls, pid, b[pid]) {
        if pid in b0 && b[pid] == b0[pid] {
          GroundedLasts(init, c, pid, b[pid]);
        } else {
          assert FileBound(c, e, pid, b[pid]);
          assert GroundedAt(calls, pid, b[pid], |calls| - 1);
        }
      }
    }
  }

  /** A sticky explanation can only be the remembered binding: collected evidence is never sticky. */
  lemma StickyExplanation(c: Call, b0: Bindings, m: Match, s: Session, p: Process)
    requires Explains(c, Collect(c, c.processes), b0, m, s, p) && m.evidence.StickyBinding?
    ensures m.rootPid in b0 && b0[m.rootPid] == Binding(m.start, c.norm(s.path))
  {
    EvidenceIsFromFiles(c, c.processes, m.rootPid, c.norm(s.path));
  }

  /** A sticky match repeats a binding that was there before the call. */
  lemma StickyRepeatsBinding(c: Call, b: Bindings, id: string) returns (s: Session)
    requires var out := MatchSessions(c, b).1; id in out.bySession && out.bySession[id].evidence.StickyBinding?
    ensures var m := MatchSessions(c, b).1.bySession[id];
      && s in c.sessions && s.id == id
      && m.rootPid in b && b[m.rootPid] == Binding(m.start, c.norm(s.path))
      && LiveRoot(c.processes, ProcessKey(m.rootPid, m.start))
  {
    var e, b0 := Collect(c, c.processes), RetainLive(b, c.processes);
    var m := MatchSessions(c, b).1.bySession[id];
    AnswersAreExplained(c, b);
    assert Explained(c, e, b0, m);
    var p;
    s, p :| s in c.sessions && p in c.processes && Explains(c, e, b0, m, s, p);
    StickyExplanation(c, b0, m, s, p);
    assert m.rootPid in RetainLive(b, c.processes);
  }

  /** A sticky verdict always goes back to file evidence: an earlier call had it for the same pid, start time and
      path, and that root was live in every call since, this one included. */
  lemma StickyGoesBackToFiles(init: seq<Call>, c: Call, id: string) returns (s: Session)
    requires var out := MatchSessions(c, RunBindings(init)).1;
      id in out.bySession && out.bySession[id].evidence.StickyBinding?
    ensures var m := MatchSessions(c, RunBindings(init)).1.bySession[id];
      && s in c.sessions && s.id == id
      && Grounded(init, m.rootPid, Binding(m.start, c.norm(s.path)))
      && LiveRoot(c.processes, ProcessKey(m.rootPid, m.start))
  {
    s := StickyRepeatsBinding(c, RunBindings(init), id);
    BindingsAreGrounded(init);
  }

  /** Collected evidence is never sticky and never by working directory. */
  lemma {:induction false} EvidenceIsFromFiles(c: Call, processes: seq<Process>, pid: nat, path: Path)
    ensures var e := Collect(c, processes);
      pid in e && path in e[pid] ==> e[pid][path].EbpfFile? || e[pid][path].ProcFd?
  {
    if processes != [] {
      EvidenceIsFromFiles(c, processes[..|processes| - 1], pid, path);
      EvidenceOfMeans(c, processes[|processes| - 1].members);
    }
  }

  // ----- the matcher itself

  class SessionProcessMatcher {
    var bindings: Bindings

    constructor ()
      ensures bindings == RunBindings([])
    {
      bindings := map[];
    }

    /** One call: the answer and the bindings remembered for the next one. */
    method Match(c: Call) returns (out: Matches)
      modifies this
      ensures (bindings, out) == MatchSessions(c, old(bindings))
    {
      var e := CollectPathEvidence(c);
      bindings := RetainLive(bindings, c.processes);
      out := LinkAll(c, e);
      var cands := CwdCandidates(c, e, out);
      out := TakeInOrder(c, Sort(cands), out);
    }

    method LinkAll(c: Call, e: PathEvidence) returns (out: Matches)
      modifies this
      ensures (bindings, out) == Link(c, e, old(bindings), |c.sessions|)
    {
      out := NO_MATCHES;
      var i := 0;
      while i < |c.sessions|
        invariant i <= |c.sessions|
        invariant (bindings, out) == Link(c, e, old(bindings), i)
      {
        out := LinkOne(c, e, out, c.sessions[i]);
        i := i + 1;
      }
    }

    method LinkOne(c: Call, e: PathEvidence, start: Matches, s: Session) returns (out: Matches)
      modifies this
      ensures (bindings, out) == LinkSession(c, e, old(bindings), start, s)
    {
      var found := FindProcess(c, e, start.usedRoots, s);
      out := if found.None? then start else RecordMatch(start, s, found.value.0, found.value.1);
    }

    method FindProcess(c: Call, e: PathEvidence, used: set<nat>, s: Session) returns (found: Option<(Process, Evidence)>)
      modifies this
      ensures (bindings, found) == FindLinked(c, e, old(bindings), used, s, 0)
    {
      var j := 0;
      while j < |c.processes|
        invariant j <= |c.processes|
        invariant FindLinked(c, e, bindings, used, s, j) == FindLinked(c, e, old(bindings), used, s, 0)
      {
        var p := c.processes[j];
        if !(p.root.pid in used || p.agent != s.agent || !FreshEnough(s, p, c.now)) {
          var evidence := LinkProcess(c.norm(s.path), p, e);
          if evidence.Some? {
            return Some((p, evidence.value));
          }
        }
        j := j + 1;
      }
      return None;
    }

    method LinkProcess(path: Path, p: Process, e: PathEvidence) returns (r: Option<Evidence>)
      modifies this
      ensures (bindings, r) == LinkTrace(old(bindings), path, p, e)
    {
      var pid := p.root.pid;
      if pid in e {
        if path in e[pid] {
          bindings := bindings[pid := Binding(p.root.start, path)];
          return Some(e[pid][path]);
        }
        bindings := bindings - {pid};
        return None;
      }
      if pid in bindings && bindings[pid].start == p.root.start && bindings[pid].path == path {
        return Some(StickyBinding);
      }
      return None;
    }

    method CwdCandidates(c: Call, e: PathEvidence, out: Matches) returns (cands: seq<Candidate>)
      ensures cands == Candidates(c, e, bindings, out, |c.sessions|)
    {
      cands := [];
      var i := 0;
      while i < |c.sessions|
        invariant i <= |c.sessions| && cands == Candidates(c, e, bindings, out, i)
      {
        if c.sessions[i].id in out.bySession {
          MatchedRowEmpty(c, e, bindings, out, i, |c.processes|);
          assert cands + [] == cands;
        } else {
          cands := CwdCandidatesOf(c, e, out, i, cands);
        }
        i := i + 1;
      }
    }

    method CwdCandidatesOf(c: Call, e: PathEvidence, out: Matches, i: nat, before: seq<Candidate>)
      returns (cands: seq<Candidate>)
      requires i < |c.sessions| && c.sessions[i].id !in out.bySession
      ensures cands == before + Row(c, e, bindings, out, i, |c.processes|)
    {
      cands := before;
      var s, j := c.sessions[i], 0;
      while j < |c.processes|
        invariant j <= |c.processes| && cands == before + Row(c, e, bindings, out, i, j)
      {
        ghost var row := Row(c, e, bindings, out, i, j);
        var p := c.processes[j];
        if p.root.pid !in out.usedRoots && p.agent == s.agent && CanUseCwdTrace(bindings, c.norm(s.path), p, e) {
          var distance := RecentCwdDistance(s, p, c.now);
          if distance.Some? {
            cands := cands + [Candidate(distance.value, SessionEndMs(s), i, j)];
            assert cands == before + (row + [CandidateOf(c, i, j)]);
          }
        }
        j := j + 1;
      }
    }
  }

  method TakeInOrder(c: Call, cands: seq<Candidate>, start: Matches) returns (out: Matches)
    ensures out == Greedy(c, cands, start)
  {
    out := start;
    var k := 0;
    assert cands[0..] == cands;
    while k < |cands|
      invariant k <= |cands| && Greedy(c, cands[k..], out) == Greedy(c, cands, start)
    {
      assert cands[k..][1..] == cands[k + 1..];
      if Free(c, cands[k], out) {
        out := RecordMatch(out, c.sessions[cands[k].session], c.processes[cands[k].process], RecentCwd);
      }
      k := k + 1;
    }
  }

  lemma {:induction false} MatchedRowEmpty(c: Call, e: PathEvidence, b: Bindings, out: Matches, i: nat, m: nat)
    requires i < |c.sessions| && m <= |c.processes| && c.sessions[i].id in out.bySession
    ensures Row(c, e, b, out, i, m) == []
  {
    if m > 0 {
      MatchedRowEmpty(c, e, b, out, i, m - 1);
    }
  }

  method CollectPathEvidence(c: Call) returns (out: PathEvidence)
    ensures out == Collect(c, c.processes)
  {
    out := map[];
    var i := 0;
    assert c.processes[..0] == [];
    while i < |c.processes|
      invariant i <= |c.processes| && out == Collect(c, c.processes[..i])
    {
      CollectNext(c, c.processes, i);
      var p := c.processes[i];
      var evidence := MemberEvidence(c, p.members);
      if evidence != map[] {
        out := out[p.root.pid := evidence];
      }
      i := i + 1;
    }
    assert c.processes[..i] == c.processes;
  }

  method MemberEvidence(c: Call, members: seq<ProcessKey>) returns (evidence: map<Path, Evidence>)
    ensures evidence == EvidenceOf(c, members)
    ensures IsEvidence(c, members, evidence)
  {
    evidence := map[];
    var i := 0;
    assert members[..0] == [];
    while i < |members|
      invariant i <= |members| && evidence == EvidenceOf(c, members[..i])
    {
      assert members[..i + 1][..i] == members[..i];
      var key := members[i];
      if key in c.fds {
        evidence := FileEvidence(c, evidence, c.fds[key]);
      }
      if key in c.observed && c.log(c.observed[key]).Some? {
        evidence := evidence[c.log(c.observed[key]).value := EbpfFile];
      }
      i := i + 1;
    }
    assert members[..i] == members;
    EvidenceOfMeans(c, members);
  }

  method FileEvidence(c: Call, start: map<Path, Evidence>, paths: seq<Path>) returns (evidence: map<Path, Evidence>)
    ensures evidence == AddFds(c, start, paths)
  {
    evidence := start;
    var i := 0;
    assert paths[..0] == [];
    while i < |paths|
      invariant i <= |paths| && evidence == AddFds(c, start, paths[..i])
    {
      assert paths[..i + 1][..i] == paths[..i];
      var path := c.log(paths[i]);
      if path.Some? && path.value !in evidence {
        evidence := evidence[path.value := ProcFd];
      }
      i := i + 1;
    }
    assert paths[..i] == paths;
  }
}
