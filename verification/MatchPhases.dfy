/** Both phases of the matcher, said completely: which sessions are matched to which processes, by what evidence, and
    what becomes of the bindings. */
module MatchPhases {
  import opened Wrappers
  import opened Words
  import opened SessionEvidence
  import opened SessionMatcher

  // ----- the evidence of a root, from the files alone

  /** The files of the members name no session log. */
  ghost predicate NoEvidence(c: Call, members: seq<ProcessKey>) {
    forall path :: !Observed(c, members, path) && !OpenFile(c, members, path)
  }

  /** The last process with this root pid whose members' files name any session log has this evidence. */
  ghost predicate RootEvidence(c: Call, processes: seq<Process>, pid: nat, e: map<Path, Evidence>) {
    exists i :: 0 <= i < |processes| && LastWithEvidence(c, processes, pid, i) && IsEvidence(c, processes[i].members, e)
  }

  ghost predicate LastWithEvidence(c: Call, processes: seq<Process>, pid: nat, i: nat)
    requires i < |processes|
  {
    && processes[i].root.pid == pid && !NoEvidence(c, processes[i].members)
    && forall j :: i < j < |processes| && processes[j].root.pid == pid ==> NoEvidence(c, processes[j].members)
  }

  ghost predicate NoRootEvidence(c: Call, processes: seq<Process>, pid: nat) {
    forall i :: 0 <= i < |processes| && processes[i].root.pid == pid ==> NoEvidence(c, processes[i].members)
  }

  lemma EmptyIffNoEvidence(c: Call, members: seq<ProcessKey>)
    ensures EvidenceOf(c, members) == map[] <==> NoEvidence(c, members)
  {
    EvidenceOfMeans(c, members);
    var e := EvidenceOf(c, members);
    if e != map[] {
      var path :| path in e;
      assert Observed(c, members, path) || OpenFile(c, members, path);
    }
  }

  lemma RootEvidenceNext(c: Call, processes: seq<Process>, last: Process, pid: nat, e: map<Path, Evidence>)
    requires RootEvidence(c, processes, pid, e) && (last.root.pid == pid ==> NoEvidence(c, last.members))
    ensures RootEvidence(c, processes + [last], pid, e)
  {
    var i :| 0 <= i < |processes| && LastWithEvidence(c, processes, pid, i) && IsEvidence(c, processes[i].members, e);
    var all := processes + [last];
    assert all[i] == processes[i];
    assert LastWithEvidence(c, all, pid, i);
  }

  /** What is collected for a pid is the evidence of the last process with that root pid that has any. */
  lemma {:induction false} CollectMeans(c: Call, processes: seq<Process>, pid: nat)
    ensures MeansRoot(c, processes, pid, Collect(c, processes))
  {
    if processes != [] {
      var init, last := processes[..|processes| - 1], processes[|processes| - 1];
      assert processes == init + [last];
      CollectMeans(c, init, pid);
      WithEvidenceMeans(c, init, last, pid, Collect(c, init));
    }
  }

  ghost predicate MeansRoot(c: Call, processes: seq<Process>, pid: nat, e: PathEvidence) {
    if pid in e then RootEvidence(c, processes, pid, e[pid]) else NoRootEvidence(c, processes, pid)
  }

  lemma WithEvidenceMeans(c: Call, processes: seq<Process>, last: Process, pid: nat, e: PathEvidence)
    requires MeansRoot(c, processes, pid, e)
    ensures MeansRoot(c, processes + [last], pid, WithEvidence(e, last.root.pid, EvidenceOf(c, last.members)))
  {
    EmptyIffNoEvidence(c, last.members);
    if last.root.pid == pid && !NoEvidence(c, last.members) {
      RootEvidenceLast(c, processes, last);
    } else if pid in e {
      RootEvidenceNext(c, processes, last, pid, e[pid]);
    }
  }

  lemma RootEvidenceLast(c: Call, processes: seq<Process>, last: Process)
    requires !NoEvidence(c, last.members)
    ensures RootEvidence(c, processes + [last], last.root.pid, EvidenceOf(c, last.members))
  {
    EvidenceOfMeans(c, last.members);
    assert (processes + [last])[|processes|] == last;
    assert LastWithEvidence(c, processes + [last], last.root.pid, |processes|);
  }

  // ----- who links

  /** The process may be linked to the session at all. */
  predicate Fits(c: Call, s: Session, p: Process) {
    p.agent == s.agent && FreshEnough(s, p, c.now)
  }

  /** It has the session's log among its root's evidence, or no evidence at all and a binding to that log from before. */
  predicate Links(c: Call, e: PathEvidence, b0: Bindings, s: Session, p: Process) {
    && Fits(c, s, p)
    && (if p.root.pid in e then c.norm(s.path) in e[p.root.pid]
        else p.root.pid in b0 && b0[p.root.pid] == Binding(p.root.start, c.norm(s.path)))
  }

  function TraceOf(e: PathEvidence, pid: nat, path: Path): Evidence {
    if pid in e && path in e[pid] then e[pid][path] else StickyBinding
  }

  /** Of the processes from `i` on whose roots are free, `j` is the first that links. */
  predicate FirstLink(c: Call, e: PathEvidence, b0: Bindings, used: set<nat>, s: Session, i: nat, j: nat) {
    && i <= j < |c.processes|
    && Links(c, e, b0, s, c.processes[j]) && c.processes[j].root.pid !in used
    && forall k :: i <= k < j && c.processes[k].root.pid !in used ==> !Links(c, e, b0, s, c.processes[k])
  }

  predicate NoLink(c: Call, e: PathEvidence, b0: Bindings, used: set<nat>, s: Session, i: nat) {
    forall k :: i <= k < |c.processes| && c.processes[k].root.pid !in used ==> !Links(c, e, b0, s, c.processes[k])
  }

  /** A process with this root pid was tried, from `i` on and before `j`. */
  predicate Tried(c: Call, used: set<nat>, s: Session, i: nat, j: nat, pid: nat) {
    exists k :: i <= k < j && k < |c.processes| && c.processes[k].root.pid == pid && pid !in used && Fits(c, s, c.processes[k])
  }

  ghost predicate SameOutside(e: PathEvidence, b: Bindings, b': Bindings) {
    forall pid :: pid !in e ==> (pid in b <==> pid in b') && (pid in b ==> b'[pid] == b[pid])
  }

  /** The pids with evidence that were tried in vain lose their binding; all others keep theirs. */
  ghost predicate Unbinds(c: Call, e: PathEvidence, used: set<nat>, s: Session, i: nat, j: nat, b: Bindings, b': Bindings) {
    forall pid ::
      if pid in e && Tried(c, used, s, i, j, pid) then pid !in b'
      else (pid in b <==> pid in b') && (pid in b ==> b'[pid] == b[pid])
  }

  lemma TriedNext(c: Call, used: set<nat>, s: Session, i: nat, j: nat, pid: nat)
    requires i < j <= |c.processes|
    ensures Tried(c, used, s, i, j, pid) <==>
      Tried(c, used, s, i + 1, j, pid) || (c.processes[i].root.pid == pid && pid !in used && Fits(c, s, c.processes[i]))
  {
  }

  /** What linking one process that fits does. */
  lemma LinkTraceIs(c: Call, e: PathEvidence, b0: Bindings, b: Bindings, s: Session, p: Process)
    requires SameOutside(e, b0, b) && Fits(c, s, p)
    ensures var pid, path := p.root.pid, c.norm(s.path);
      LinkTrace(b, path, p, e) ==
        if Links(c, e, b0, s, p) then (Bound(e, b, p, path), Some(TraceOf(e, pid, path)))
        else (if pid in e then b - {pid} else b, None)
  {
  }

  /** The bindings after linking. */
  function Bound(e: PathEvidence, b: Bindings, p: Process, path: Path): Bindings {
    if p.root.pid in e then b[p.root.pid := Binding(p.root.start, path)] else b
  }

  /** A search from process `i` with bindings `b` that tries the processes before `j` in vain, leaving bindings `tried`,
      and then links `j`, or ends there. */
  ghost predicate Search(c: Call, e: PathEvidence, b0: Bindings, used: set<nat>, s: Session, i: nat, b: Bindings,
                         j: nat, tried: Bindings, r: (Bindings, Option<(Process, Evidence)>))
  {
    && i <= j <= |c.processes| && Unbinds(c, e, used, s, i, j, b, tried)
    && match r.1
       case None => j == |c.processes| && NoLink(c, e, b0, used, s, i) && r.0 == tried
       case Some(link) =>
         && FirstLink(c, e, b0, used, s, i, j)
         && var p := c.processes[j];
            link == (p, TraceOf(e, p.root.pid, c.norm(s.path))) && r.0 == Bound(e, tried, p, c.norm(s.path))
  }

  lemma SearchStops(c: Call, e: PathEvidence, b0: Bindings, used: set<nat>, s: Session, i: nat, b: Bindings)
    requires i <= |c.processes| && SameOutside(e, b0, b)
    requires i < |c.processes| ==> c.processes[i].root.pid !in used && Links(c, e, b0, s, c.processes[i])
    ensures Search(c, e, b0, used, s, i, b, i, b, FindLinked(c, e, b, used, s, i))
  {
    if i < |c.processes| {
      LinkTraceIs(c, e, b0, b, s, c.processes[i]);
    }
  }

  lemma UnbindsBefore(c: Call, e: PathEvidence, used: set<nat>, s: Session, i: nat, j: nat, b: Bindings, b1: Bindings, tried: Bindings)
    requires i < j <= |c.processes| && Unbinds(c, e, used, s, i + 1, j, b1, tried)
    requires var p := c.processes[i];
      b1 == if p.root.pid !in used && Fits(c, s, p) && p.root.pid in e then b - {p.root.pid} else b
    ensures Unbinds(c, e, used, s, i, j, b, tried)
  {
    forall pid
      ensures if pid in e && Tried(c, used, s, i, j, pid) then pid !in tried
              else (pid in b <==> pid in tried) && (pid in b ==> tried[pid] == b[pid])
    {
      TriedNext(c, used, s, i, j, pid);
    }
  }

  lemma SearchGoesOn(c: Call, e: PathEvidence, b0: Bindings, used: set<nat>, s: Session, i: nat, b: Bindings, b1: Bindings,
                     j: nat, tried: Bindings, r: (Bindings, Option<(Process, Evidence)>))
    requires i < |c.processes| && Search(c, e, b0, used, s, i + 1, b1, j, tried, r)
    requires c.processes[i].root.pid !in used ==> !Links(c, e, b0, s, c.processes[i])
    requires var p := c.processes[i];
      b1 == if p.root.pid !in used && Fits(c, s, p) && p.root.pid in e then b - {p.root.pid} else b
    ensures Search(c, e, b0, used, s, i, b, j, tried, r)
  {
    UnbindsBefore(c, e, used, s, i, j, b, b1, tried);
  }

  /** What the search finds: the first process that links. */
  lemma {:induction false} FindLinkedIsFirst(c: Call, e: PathEvidence, b0: Bindings, b: Bindings, used: set<nat>, s: Session, i: nat)
    returns (j: nat, tried: Bindings)
    requires i <= |c.processes| && SameOutside(e, b0, b)
    ensures Search(c, e, b0, used, s, i, b, j, tried, FindLinked(c, e, b, used, s, i))
    decreases |c.processes| - i
  {
    if i == |c.processes| || (c.processes[i].root.pid !in used && Links(c, e, b0, s, c.processes[i])) {
      j, tried := i, b;
      SearchStops(c, e, b0, used, s, i, b);
    } else {
      var p := c.processes[i];
      var b1 := if p.root.pid !in used && Fits(c, s, p) && p.root.pid in e then b - {p.root.pid} else b;
      j, tried := FindLinkedIsFirst(c, e, b0, b1, used, s, i + 1);
      SearchGoesOn(c, e, b0, used, s, i, b, b1, j, tried, FindLinked(c, e, b1, used, s, i + 1));
      if p.root.pid !in used && Fits(c, s, p) {
        LinkTraceIs(c, e, b0, b, s, p);
      }
    }
  }

  // ----- one session

  /** The match of the session is recorded, under its id and under the pids of all members, and its root is used. */
  ghost predicate Records(out: Matches, out': Matches, s: Session, p: Process, trace: Evidence) {
    && s.id in out'.bySession && out'.bySession == out.bySession[s.id := out'.bySession[s.id]]
    && (var m := out'.bySession[s.id];
        && m.sessionId == s.id && m.rootPid == p.root.pid && m.start == p.root.start && m.evidence == trace
        && |m.matchedPids| == |p.members| && forall i :: 0 <= i < |p.members| ==> m.matchedPids[i] == p.members[i].pid)
    && out'.usedRoots == out.usedRoots + {p.root.pid}
    && forall pid: nat ::
         if IsMember(p, pid) then pid in out'.byPid && out'.byPid[pid] == s.id
         else (pid in out.byPid <==> pid in out'.byPid) && (pid in out.byPid ==> out'.byPid[pid] == out.byPid[pid])
  }

  predicate IsMember(p: Process, pid: nat) {
    exists i :: 0 <= i < |p.members| && p.members[i].pid == pid
  }

  lemma RecordMatchRecords(out: Matches, s: Session, p: Process, trace: Evidence)
    ensures Records(out, RecordMatch(out, s, p, trace), s, p, trace)
  {
    var pids := PidsOf(p.members);
    forall pid: nat ensures pid in pids <==> IsMember(p, pid) {
      if IsMember(p, pid) {
        var i :| 0 <= i < |p.members| && p.members[i].pid == pid;
        assert pids[i] == pid;
      }
    }
  }

  /** What the first phase must do with one session: link it to the first process that links and whose root is free, by
      the evidence of the root or its binding, and bind the root if it has evidence; leave it if there is none. Roots
      with evidence that were tried in vain lose their binding, and nothing else changes. */
  ghost predicate LinksSession(c: Call, e: PathEvidence, b0: Bindings, s: Session,
                               b: Bindings, out: Matches, b': Bindings, out': Matches)
  {
    || (NoLink(c, e, b0, out.usedRoots, s, 0) && out' == out && Unbinds(c, e, out.usedRoots, s, 0, |c.processes|, b, b'))
    || exists j: nat, tried: Bindings ::
         && FirstLink(c, e, b0, out.usedRoots, s, 0, j)
         && Unbinds(c, e, out.usedRoots, s, 0, j, b, tried) && b' == Bound(e, tried, c.processes[j], c.norm(s.path))
         && Records(out, out', s, c.processes[j], TraceOf(e, c.processes[j].root.pid, c.norm(s.path)))
  }

  lemma LinkSessionLinks(c: Call, e: PathEvidence, b0: Bindings, b: Bindings, out: Matches, s: Session)
    requires SameOutside(e, b0, b)
    ensures var (b', out') := LinkSession(c, e, b, out, s); LinksSession(c, e, b0, s, b, out, b', out')
  {
    var j, tried := FindLinkedIsFirst(c, e, b0, b, out.usedRoots, s, 0);
    var (b', found) := FindLinked(c, e, b, out.usedRoots, s, 0);
    if found.Some? {
      RecordMatchRecords(out, s, found.value.0, found.value.1);
    }
  }

  lemma LinksKeepOutside(c: Call, e: PathEvidence, b0: Bindings, n: nat)
    requires n <= |c.sessions|
    ensures SameOutside(e, b0, Link(c, e, b0, n).0)
  {
    LinkOk(c, e, b0, n);
  }

  /** In every call each session is treated so in the first phase. */
  lemma SessionIsLinked(c: Call, b: Bindings, n: nat)
    requires n < |c.sessions|
    ensures var e, b0 := Collect(c, c.processes), RetainLive(b, c.processes);
      var (b1, out1), (b2, out2) := Link(c, e, b0, n), Link(c, e, b0, n + 1);
      LinksSession(c, e, b0, c.sessions[n], b1, out1, b2, out2)
  {
    LinkedOutcome(c, Collect(c, c.processes), RetainLive(b, c.processes), n);
  }

  // ----- the whole phase

  /** Session `n` is linked to process `k`. */
  predicate LinkedTo(c: Call, e: PathEvidence, b0: Bindings, n: nat, k: nat)
    requires n < |c.sessions|
  {
    FirstLink(c, e, b0, Link(c, e, b0, n).1.usedRoots, c.sessions[n], 0, k)
  }

  /** A session before `i` was linked to a process with this root pid. */
  predicate UsedBefore(c: Call, e: PathEvidence, b0: Bindings, i: nat, pid: nat)
    requires i <= |c.sessions|
  {
    exists n, k :: 0 <= n < i && 0 <= k < |c.processes| && LinkedTo(c, e, b0, n, k) && c.processes[k].root.pid == pid
  }

  lemma LinkedOutcome(c: Call, e: PathEvidence, b0: Bindings, n: nat)
    requires n < |c.sessions|
    ensures var s := c.sessions[n]; var (b, out), (b', out') := Link(c, e, b0, n), Link(c, e, b0, n + 1);
      LinksSession(c, e, b0, s, b, out, b', out')
  {
    LinksKeepOutside(c, e, b0, n);
    LinkSessionLinks(c, e, b0, Link(c, e, b0, n).0, Link(c, e, b0, n).1, c.sessions[n]);
  }

  lemma OnlyFirst(c: Call, e: PathEvidence, b0: Bindings, used: set<nat>, s: Session, j: nat, k: nat)
    requires FirstLink(c, e, b0, used, s, 0, j) && FirstLink(c, e, b0, used, s, 0, k)
    ensures j == k
  {
  }

  predicate LinksRoot(c: Call, e: PathEvidence, b0: Bindings, n: nat, pid: nat)
    requires n < |c.sessions|
  {
    exists k :: 0 <= k < |c.processes| && LinkedTo(c, e, b0, n, k) && c.processes[k].root.pid == pid
  }

  lemma UsedAfter(c: Call, e: PathEvidence, b0: Bindings, n: nat, pid: nat)
    requires n < |c.sessions|
    ensures pid in Link(c, e, b0, n + 1).1.usedRoots <==>
      pid in Link(c, e, b0, n).1.usedRoots || LinksRoot(c, e, b0, n, pid)
  {
    LinkedOutcome(c, e, b0, n);
    var r, r' := Link(c, e, b0, n), Link(c, e, b0, n + 1);
    RootsAfter(c, e, b0, c.sessions[n], r.0, r.1, r'.0, r'.1, pid);
  }

  lemma RootsAfter(c: Call, e: PathEvidence, b0: Bindings, s: Session,
                   b: Bindings, out: Matches, b': Bindings, out': Matches, pid: nat)
    requires LinksSession(c, e, b0, s, b, out, b', out')
    ensures pid in out'.usedRoots <==>
      pid in out.usedRoots
      || exists k :: 0 <= k < |c.processes| && FirstLink(c, e, b0, out.usedRoots, s, 0, k) && c.processes[k].root.pid == pid
  {
    if !NoLink(c, e, b0, out.usedRoots, s, 0) {
      var j: nat, tried: Bindings :|
        && FirstLink(c, e, b0, out.usedRoots, s, 0, j)
        && Unbinds(c, e, out.usedRoots, s, 0, j, b, tried) && b' == Bound(e, tried, c.processes[j], c.norm(s.path))
        && Records(out, out', s, c.processes[j], TraceOf(e, c.processes[j].root.pid, c.norm(s.path)));
      forall k | FirstLink(c, e, b0, out.usedRoots, s, 0, k) ensures k == j {
        OnlyFirst(c, e, b0, out.usedRoots, s, j, k);
      }
    }
  }

  /** The roots used so far are those of the sessions linked so far. */
  lemma {:induction false} UsedIffLinked(c: Call, e: PathEvidence, b0: Bindings, i: nat, pid: nat)
    requires i <= |c.sessions|
    ensures pid in Link(c, e, b0, i).1.usedRoots <==> UsedBefore(c, e, b0, i, pid)
  {
    if i > 0 {
      UsedIffLinked(c, e, b0, i - 1, pid);
      UsedAfter(c, e, b0, i - 1, pid);
      UsedNext(c, e, b0, i - 1, pid);
    }
  }

  lemma UsedNext(c: Call, e: PathEvidence, b0: Bindings, n: nat, pid: nat)
    requires n < |c.sessions|
    ensures UsedBefore(c, e, b0, n + 1, pid) <==>
      UsedBefore(c, e, b0, n, pid) || LinksRoot(c, e, b0, n, pid)
  {
  }

  lemma {:induction false} MatchedStays(c: Call, e: PathEvidence, b0: Bindings, m: nat, n: nat, id: string)
    requires m <= n <= |c.sessions| && id in Link(c, e, b0, m).1.bySession
    ensures id in Link(c, e, b0, n).1.bySession
    decreases n
  {
    if m < n {
      MatchedStays(c, e, b0, m, n - 1, id);
      LinkedOutcome(c, e, b0, n - 1);
    }
  }

  /** A session that finds a process that links is matched, or the process's root was used by a session before. */
  lemma LinkingIsMatched(c: Call, e: PathEvidence, b0: Bindings, i: nat, j: nat)
    requires i < |c.sessions| && j < |c.processes| && Links(c, e, b0, c.sessions[i], c.processes[j])
    ensures c.sessions[i].id in Link(c, e, b0, |c.sessions|).1.bySession
      || UsedBefore(c, e, b0, i, c.processes[j].root.pid)
  {
    UsedIffLinked(c, e, b0, i, c.processes[j].root.pid);
    LinkedOutcome(c, e, b0, i);
    if !UsedBefore(c, e, b0, i, c.processes[j].root.pid) {
      assert !NoLink(c, e, b0, Link(c, e, b0, i).1.usedRoots, c.sessions[i], 0);
      MatchedStays(c, e, b0, i + 1, |c.sessions|, c.sessions[i].id);
    }
  }

  lemma UsedIsLeft(c: Call, e: PathEvidence, b0: Bindings, n: nat, pid: nat)
    requires n < |c.sessions| && pid in Link(c, e, b0, n).1.usedRoots
    ensures var (b, out), (b', out') := Link(c, e, b0, n), Link(c, e, b0, n + 1);
      pid in out'.usedRoots && (pid in b ==> pid in b' && b'[pid] == b[pid])
  {
    LinkedOutcome(c, e, b0, n);
    assert forall j :: !Tried(c, Link(c, e, b0, n).1.usedRoots, c.sessions[n], 0, j, pid);
  }

  /** No session after the one that used a root changes its binding. */
  lemma {:induction false} BindingStays(c: Call, e: PathEvidence, b0: Bindings, m: nat, n: nat, pid: nat, bound: Binding)
    requires m <= n <= |c.sessions|
    requires var (b, out) := Link(c, e, b0, m); pid in out.usedRoots && pid in b && b[pid] == bound
    ensures var (b, out) := Link(c, e, b0, n); pid in out.usedRoots && pid in b && b[pid] == bound
    decreases n
  {
    if m < n {
      BindingStays(c, e, b0, m, n - 1, pid, bound);
      UsedIsLeft(c, e, b0, n - 1, pid);
    }
  }

  /** Every process that links a session at all -- by its files or, without any, by its binding -- has it matched in the
      answer, unless its root was used by a session before. */
  lemma FilePhaseIsComplete(c: Call, b: Bindings, i: nat, j: nat)
    requires i < |c.sessions| && j < |c.processes|
    requires Links(c, Collect(c, c.processes), RetainLive(b, c.processes), c.sessions[i], c.processes[j])
    ensures c.sessions[i].id in MatchSessions(c, b).1.bySession
      || UsedBefore(c, Collect(c, c.processes), RetainLive(b, c.processes), i, c.processes[j].root.pid)
  {
    var e, b0 := Collect(c, c.processes), RetainLive(b, c.processes);
    LinkingIsMatched(c, e, b0, i, j);
    var (b1, out1) := Link(c, e, b0, |c.sessions|);
    GreedyKeeps(c, Sort(Candidates(c, e, b1, out1, |c.sessions|)), out1);
  }

  /** A session linked by files leaves its root bound to its start and the session's log. */
  lemma LinkedIsBound(c: Call, b: Bindings, i: nat, j: nat)
    requires i < |c.sessions| && j < |c.processes| && c.processes[j].root.pid in Collect(c, c.processes)
    requires LinkedTo(c, Collect(c, c.processes), RetainLive(b, c.processes), i, j)
    ensures var p, bound := c.processes[j], MatchSessions(c, b).0;
      p.root.pid in bound && bound[p.root.pid] == Binding(p.root.start, c.norm(c.sessions[i].path))
  {
    var e, b0, p := Collect(c, c.processes), RetainLive(b, c.processes), c.processes[j];
    LinkedOutcome(c, e, b0, i);
    assert !NoLink(c, e, b0, Link(c, e, b0, i).1.usedRoots, c.sessions[i], 0);
    BindingStays(c, e, b0, i + 1, |c.sessions|, p.root.pid, Binding(p.root.start, c.norm(c.sessions[i].path)));
  }

  // ----- in terms of the files

  /** No other process has this one's root pid. */
  predicate OnlyRoot(c: Call, j: nat)
    requires j < |c.processes|
  {
    forall k :: 0 <= k < |c.processes| && k != j ==> c.processes[k].root.pid != c.processes[j].root.pid
  }

  /** What the members' files name is the root's evidence: the logs seen opened or open, and how they were found. */
  lemma FilesAreEvidence(c: Call, j: nat, path: Path)
    requires j < |c.processes| && OnlyRoot(c, j)
    ensures var e, p := Collect(c, c.processes), c.processes[j];
      if Observed(c, p.members, path) || OpenFile(c, p.members, path) then
        && p.root.pid in e && path in e[p.root.pid]
        && TraceOf(e, p.root.pid, path) == if Observed(c, p.members, path) then EbpfFile else ProcFd
      else p.root.pid in e ==> path !in e[p.root.pid]
    ensures c.processes[j].root.pid in Collect(c, c.processes) <==> !NoEvidence(c, c.processes[j].members)
  {
    var e, p := Collect(c, c.processes), c.processes[j];
    CollectMeans(c, c.processes, p.root.pid);
    if p.root.pid in e {
      assert MeansRoot(c, c.processes, p.root.pid, e);
      assert RootEvidence(c, c.processes, p.root.pid, e[p.root.pid]);
    }
  }

  /** A session whose log a fresh process of its agent has open or was seen to open is matched, unless the process's root
      was used by a session before; so is one whose log the process is bound to, if its files name no log. */
  lemma FilesAreMatched(c: Call, b: Bindings, i: nat, j: nat)
    requires i < |c.sessions| && j < |c.processes| && OnlyRoot(c, j) && Fits(c, c.sessions[i], c.processes[j])
    requires var p, path := c.processes[j], c.norm(c.sessions[i].path);
      || Observed(c, p.members, path) || OpenFile(c, p.members, path)
      || (NoEvidence(c, p.members) && p.root.pid in b && b[p.root.pid] == Binding(p.root.start, path))
    ensures c.sessions[i].id in MatchSessions(c, b).1.bySession
      || UsedBefore(c, Collect(c, c.processes), RetainLive(b, c.processes), i, c.processes[j].root.pid)
  {
    var p := c.processes[j];
    FilesAreEvidence(c, j, c.norm(c.sessions[i].path));
    assert LiveRoot(c.processes, p.root);
    FilePhaseIsComplete(c, b, i, j);
  }

  // ----- the second phase

  /** The process may be matched to the session by its working directory: neither its files nor a binding it has speaks
      against it, and both have the same directory and a known, close enough time. */
  ghost predicate SharesDirectory(c: Call, b: Bindings, s: Session, p: Process) {
    && p.agent == s.agent
    && NoRootEvidence(c, c.processes, p.root.pid)
    && (p.root.pid in b && b[p.root.pid].start == p.root.start ==> b[p.root.pid].path == c.norm(s.path))
    && s.cwd.Some? && s.cwd.value != "" && p.cwd == s.cwd
    && p.age.Some? && FreshEnough(s, p, c.now)
  }

  lemma EvidenceIff(c: Call, pid: nat)
    ensures pid in Collect(c, c.processes) <==> !NoRootEvidence(c, c.processes, pid)
  {
    CollectMeans(c, c.processes, pid);
    assert MeansRoot(c, c.processes, pid, Collect(c, c.processes));
  }

  /** After the first phase of a call, a pair is a candidate exactly when both sides are free and share a directory. */
  lemma EligibleIff(c: Call, b: Bindings, i: nat, j: nat)
    requires i < |c.sessions| && j < |c.processes|
    ensures var e, b0 := Collect(c, c.processes), RetainLive(b, c.processes);
      var (b1, out) := Link(c, e, b0, |c.sessions|);
      Eligible(c, e, b1, out, i, j) <==>
        && c.sessions[i].id !in out.bySession && c.processes[j].root.pid !in out.usedRoots
        && SharesDirectory(c, b, c.sessions[i], c.processes[j])
  {
    var e, b0, p := Collect(c, c.processes), RetainLive(b, c.processes), c.processes[j];
    EvidenceIff(c, p.root.pid);
    LinksKeepOutside(c, e, b0, |c.sessions|);
    DistanceMeans(c.sessions[i], p, c.now);
    assert LiveRoot(c.processes, p.root);
  }

  lemma {:induction false} GreedyUses(c: Call, xs: seq<Candidate>, out: Matches, id: string)
    requires id in Greedy(c, xs, out).bySession && id !in out.bySession
    ensures Greedy(c, xs, out).bySession[id].rootPid in Greedy(c, xs, out).usedRoots
  {
    var out1 := Take(c, xs[0], out);
    if id in out1.bySession {
      GreedyKeeps(c, xs[1..], out1);
    } else {
      GreedyUses(c, xs[1..], out1, id);
    }
  }

  /** No pair is left over: of a session and a process that share a directory, one is matched in the answer. */
  lemma NoPairIsLeft(c: Call, b: Bindings, i: nat, j: nat)
    requires i < |c.sessions| && j < |c.processes| && SharesDirectory(c, b, c.sessions[i], c.processes[j])
    ensures var final := MatchSessions(c, b).1;
      c.sessions[i].id in final.bySession || c.processes[j].root.pid in final.usedRoots
  {
    var e, b0 := Collect(c, c.processes), RetainLive(b, c.processes);
    var (b1, out) := Link(c, e, b0, |c.sessions|);
    var xs, final := Sort(Candidates(c, e, b1, out, |c.sessions|)), MatchSessions(c, b).1;
    GreedyKeeps(c, xs, out);
    EligibleIff(c, b, i, j);
    if Eligible(c, e, b1, out, i, j) {
      CwdPhaseIsStable(c, b, e, b1, out, i, j);
      if c.sessions[i].id !in final.bySession {
        var x := CandidateOf(c, i, j);
        var y :| Blocks(c, e, b1, out, y, x, final);
        ChosenIsUsed(c, e, b1, out, y, final, xs);
      }
    }
  }

  lemma ChosenIsUsed(c: Call, e: PathEvidence, b: Bindings, out: Matches, y: Candidate, final: Matches, xs: seq<Candidate>)
    requires IsCandidate(c, e, b, out, y) && Chosen(c, y, final) && final == Greedy(c, xs, out)
    ensures c.processes[y.process].root.pid in final.usedRoots
  {
    GreedyUses(c, xs, out, c.sessions[y.session].id);
  }

  /** The time between the session's end and the process's start. */
  function DistanceOf(c: Call, i: nat, j: nat): nat
    requires i < |c.sessions| && j < |c.processes| && c.processes[j].age.Some?
  {
    var start, end := StartOf(c.processes[j], c.now), SessionEndMs(c.sessions[i]);
    var from := if start < 0 then 0 else start;
    if end >= from then end - from else from - end
  }

  /** Pair (i2, j2) is preferred to pair (i, j): it is closer in time, or as close and its session ended later, or that
      too is the same and it stands first. */
  predicate Preferred(c: Call, i2: nat, j2: nat, i: nat, j: nat)
    requires i < |c.sessions| && j < |c.processes| && c.processes[j].age.Some?
    requires i2 < |c.sessions| && j2 < |c.processes| && c.processes[j2].age.Some?
  {
    var d, d2 := DistanceOf(c, i, j), DistanceOf(c, i2, j2);
    var e, e2 := SessionEndMs(c.sessions[i]), SessionEndMs(c.sessions[i2]);
    d2 < d || (d2 == d && (e2 > e || (e2 == e && (i2 < i || (i2 == i && j2 < j)))))
  }

  lemma DistanceIs(c: Call, i: nat, j: nat)
    requires i < |c.sessions| && j < |c.processes| && RecentCwdDistance(c.sessions[i], c.processes[j], c.now).Some?
    ensures c.processes[j].age.Some?
    ensures CandidateOf(c, i, j) == Candidate(DistanceOf(c, i, j), SessionEndMs(c.sessions[i]), i, j)
  {
    DistanceMeans(c.sessions[i], c.processes[j], c.now);
  }

  /** A pair that is free after the first phase and shares a directory is matched, or a pair of that kind with its session
      or its root is matched by directory and preferred to it. */
  ghost predicate MatchedOrOutbid(c: Call, b: Bindings, out: Matches, final: Matches, i: nat, j: nat)
    requires i < |c.sessions| && j < |c.processes| && c.processes[j].age.Some?
  {
    || MatchedByDirectory(c, final, i, j)
    || exists i2: nat, j2: nat ::
         && i2 < |c.sessions| && j2 < |c.processes| && SharesDirectory(c, b, c.sessions[i2], c.processes[j2])
         && c.sessions[i2].id !in out.bySession && c.processes[j2].root.pid !in out.usedRoots
         && (c.sessions[i2].id == c.sessions[i].id || c.processes[j2].root.pid == c.processes[j].root.pid)
         && MatchedByDirectory(c, final, i2, j2) && Preferred(c, i2, j2, i, j)
  }

  ghost predicate MatchedByDirectory(c: Call, final: Matches, i: nat, j: nat)
    requires i < |c.sessions| && j < |c.processes|
  {
    var id := c.sessions[i].id;
    && id in final.bySession
    && final.bySession[id].rootPid == c.processes[j].root.pid && final.bySession[id].start == c.processes[j].root.start
    && final.bySession[id].evidence == RecentCwd
  }

  /** The second phase prefers the closer pair, then the later session, then the first. */
  lemma CloserPairsWin(c: Call, b: Bindings, i: nat, j: nat)
    requires i < |c.sessions| && j < |c.processes| && SharesDirectory(c, b, c.sessions[i], c.processes[j])
    requires var out := Link(c, Collect(c, c.processes), RetainLive(b, c.processes), |c.sessions|).1;
      c.sessions[i].id !in out.bySession && c.processes[j].root.pid !in out.usedRoots
    ensures var out := Link(c, Collect(c, c.processes), RetainLive(b, c.processes), |c.sessions|).1;
      MatchedOrOutbid(c, b, out, MatchSessions(c, b).1, i, j)
  {
    var e, b0 := Collect(c, c.processes), RetainLive(b, c.processes);
    var (b1, out) := Link(c, e, b0, |c.sessions|);
    var final, x := MatchSessions(c, b).1, CandidateOf(c, i, j);
    EligibleIff(c, b, i, j);
    CwdPhaseIsStable(c, b, e, b1, out, i, j);
    if !Chosen(c, x, final) {
      var y :| Blocks(c, e, b1, out, y, x, final);
      EligibleIff(c, b, y.session, y.process);
      DistanceIs(c, i, j);
      DistanceIs(c, y.session, y.process);
      assert Preferred(c, y.session, y.process, i, j);
      assert MatchedByDirectory(c, final, y.session, y.process);
    }
  }
}
