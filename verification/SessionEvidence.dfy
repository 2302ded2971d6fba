/** What the matcher of agent sessions to live processes goes by: times, and the evidence in the files that the
    members of a process tree have open or were seen to open. */
module SessionEvidence {
  import opened Wrappers
  import opened Words

  const SESSION_PROCESS_START_SKEW_MS: U64 := 30_000

  type Path = string

  datatype ProcessKey = ProcessKey(pid: nat, start: nat)

  datatype Process = Process(root: ProcessKey, members: seq<ProcessKey>, agent: string, age: Option<real>, cwd: Option<string>)

  datatype Session = Session(id: string, agent: string, path: Path, startMs: Option<U64>, endMs: Option<U64>, cwd: Option<string>)

  /** What links a session to a process, strongest first. */
  datatype Evidence = EbpfFile | ProcFd | StickyBinding | RecentCwd

  datatype Match = Match(sessionId: string, rootPid: nat, matchedPids: seq<nat>, start: nat, evidence: Evidence)

  datatype Matches = Matches(bySession: map<string, Match>, byPid: map<nat, string>, usedRoots: set<nat>)

  datatype Binding = Binding(start: nat, path: Path)

  type Bindings = map<nat, Binding>

  type PathEvidence = map<nat, map<Path, Evidence>>

  /** One call's arguments. `norm` is the file system's canonical form of a path at that time, and `log` recognises
      (and normalises) session logs; `fds` lists each process's open files in iteration order. */
  datatype Call = Call(
    sessions: seq<Session>,
    processes: seq<Process>,
    fds: map<ProcessKey, seq<Path>>,
    observed: map<ProcessKey, Path>,
    now: U64,
    norm: Path -> Path,
    log: Path -> Option<Path>)

  // ----- times

  function SaturatingAdd(a: U64, b: U64): U64 {
    if a + b > U64_MAX then U64_MAX else a + b
  }

  /** A non-negative float of milliseconds rounded half away from zero and cast to 64 bits. */
  function RoundMs(age: real): U64 {
    var ms := ((if age < 0.0 then 0.0 else age) * 1000.0 + 0.5).Floor;
    if ms > U64_MAX then U64_MAX else ms
  }

  /** It is at most half a millisecond off, a half is rounded up, a negative age counts as none, and only an age beyond
      64 bits is cut. */
  lemma RoundMsIs(age: real)
    ensures age >= 0.0 && age * 1000.0 + 0.5 < 18446744073709551616.0 ==>
      RoundMs(age) as real - 0.5 <= age * 1000.0 < RoundMs(age) as real + 0.5
    ensures age < 0.0 ==> RoundMs(age) == 0
    ensures age * 1000.0 + 0.5 >= 18446744073709551616.0 ==> RoundMs(age) == U64_MAX
  {
    if age < 0.0 {
      assert (0.0 * 1000.0 + 0.5).Floor == 0;
    }
  }

  function ProcessStartMs(p: Process, now: U64): Option<U64> {
    match p.age
    case None => None
    case Some(age) => Some(if now >= RoundMs(age) then now - RoundMs(age) else 0)
  }

  function SessionEndMs(s: Session): U64 {
    match s.endMs
    case Some(t) => t
    case None => if s.startMs.Some? then s.startMs.value else 0
  }

  predicate FreshEnough(s: Session, p: Process, now: U64) {
    var start := ProcessStartMs(p, now);
    start.None? || SaturatingAdd(SessionEndMs(s), SESSION_PROCESS_START_SKEW_MS) >= start.value
  }

  function RecentCwdDistance(s: Session, p: Process, now: U64): Option<U64> {
    if s.cwd.None? || s.cwd.value == "" || p.cwd != s.cwd || ProcessStartMs(p, now).None? then None
    else
      var start, end := ProcessStartMs(p, now).value, SessionEndMs(s);
      if SaturatingAdd(end, SESSION_PROCESS_START_SKEW_MS) < start then None
      else Some(if end >= start then end - start else start - end)
  }

  /** When the process started, if its age is known, as an integer that may lie before the epoch. */
  function StartOf(p: Process, now: U64): int
    requires p.age.Some?
  {
    now - RoundMs(p.age.value)
  }

  /** Neither the saturation nor the clamp at the epoch matters: a process is fresh enough exactly when it did not start
      more than 30 seconds after the session's end. */
  lemma FreshMeans(s: Session, p: Process, now: U64)
    ensures FreshEnough(s, p, now) <==> p.age.None? || StartOf(p, now) <= SessionEndMs(s) + 30_000
  {
  }

  /** A pair has a distance exactly when both have the same non-empty directory, the age is known and the process is fresh
      enough, and it is then the time between the session's end and the start, not before the epoch. */
  lemma DistanceMeans(s: Session, p: Process, now: U64)
    ensures RecentCwdDistance(s, p, now).Some? <==>
      s.cwd.Some? && s.cwd.value != "" && p.cwd == s.cwd && p.age.Some? && FreshEnough(s, p, now)
    ensures RecentCwdDistance(s, p, now).Some? ==>
      var start := if StartOf(p, now) < 0 then 0 else StartOf(p, now);
      var d := RecentCwdDistance(s, p, now).value;
      SessionEndMs(s) == start + d || start == SessionEndMs(s) + d
  {
  }

  // ----- path evidence

  ghost predicate Observed(c: Call, members: seq<ProcessKey>, path: Path) {
    exists k :: k in members && k in c.observed && c.log(c.observed[k]) == Some(path)
  }

  ghost predicate OpenFile(c: Call, members: seq<ProcessKey>, path: Path) {
    exists k, i :: k in members && k in c.fds && 0 <= i < |c.fds[k]| && c.log(c.fds[k][i]) == Some(path)
  }

  /** A map of evidence says what the members' files say: observed by the kernel probes, else merely open. */
  ghost predicate IsEvidence(c: Call, members: seq<ProcessKey>, e: map<Path, Evidence>) {
    forall path ::
      && (path in e <==> Observed(c, members, path) || OpenFile(c, members, path))
      && (path in e ==> e[path] == if Observed(c, members, path) then EbpfFile else ProcFd)
  }

  /** The loop over members, as a fold. */
  function EvidenceOf(c: Call, members: seq<ProcessKey>): map<Path, Evidence> {
    if members == [] then map[]
    else
      var k, init := members[|members| - 1], members[..|members| - 1];
      AddObserved(c, AddFds(c, EvidenceOf(c, init), if k in c.fds then c.fds[k] else []), k)
  }

  function AddFds(c: Call, e: map<Path, Evidence>, paths: seq<Path>): map<Path, Evidence> {
    if paths == [] then e
    else
      var e1 := AddFds(c, e, paths[..|paths| - 1]);
      match c.log(paths[|paths| - 1])
      case Some(path) => if path in e1 then e1 else e1[path := ProcFd]
      case None => e1
  }

  function AddObserved(c: Call, e: map<Path, Evidence>, k: ProcessKey): map<Path, Evidence> {
    if k in c.observed && c.log(c.observed[k]).Some? then e[c.log(c.observed[k]).value := EbpfFile] else e
  }

  lemma {:induction false} AddFdsMeans(c: Call, e: map<Path, Evidence>, paths: seq<Path>, path: Path)
    ensures var e' := AddFds(c, e, paths);
      && (path in e' <==> path in e || exists i :: 0 <= i < |paths| && c.log(paths[i]) == Some(path))
      && (path in e' ==> e'[path] == if path in e then e[path] else ProcFd)
  {
    if paths != [] {
      var n := |paths| - 1;
      AddFdsMeans(c, e, paths[..n], path);
      if exists i :: 0 <= i < |paths| && c.log(paths[i]) == Some(path) {
        var i :| 0 <= i < |paths| && c.log(paths[i]) == Some(path);
        assert i < n ==> paths[..n][i] == paths[i];
      }
      if exists i :: 0 <= i < n && c.log(paths[..n][i]) == Some(path) {
        var i :| 0 <= i < n && c.log(paths[..n][i]) == Some(path);
        assert c.log(paths[i]) == Some(path);
      }
    }
  }

  lemma ObservedSplit(c: Call, init: seq<ProcessKey>, k: ProcessKey, path: Path)
    ensures Observed(c, init + [k], path) <==>
      Observed(c, init, path) || (k in c.observed && c.log(c.observed[k]) == Some(path))
    ensures OpenFile(c, init + [k], path) <==>
      OpenFile(c, init, path) || (k in c.fds && exists i :: 0 <= i < |c.fds[k]| && c.log(c.fds[k][i]) == Some(path))
  {
    assert k in init + [k];
    assert forall x :: x in init ==> x in init + [k];
  }

  /** The fold computes the evidence, whatever the order of the members. */
  lemma {:induction false} EvidenceOfMeans(c: Call, members: seq<ProcessKey>)
    ensures IsEvidence(c, members, EvidenceOf(c, members))
  {
    if members != [] {
      var k, init := members[|members| - 1], members[..|members| - 1];
      assert members == init + [k];
      EvidenceOfMeans(c, init);
      var fds := if k in c.fds then c.fds[k] else [];
      forall path
        ensures var e := EvidenceOf(c, members);
          && (path in e <==> Observed(c, members, path) || OpenFile(c, members, path))
          && (path in e ==> e[path] == if Observed(c, members, path) then EbpfFile else ProcFd)
      {
        ObservedSplit(c, init, k, path);
        AddFdsMeans(c, EvidenceOf(c, init), fds, path);
      }
    }
  }

  /** Reordering or repeating the members of a process changes no evidence. */
  lemma EvidenceIgnoresOrder(c: Call, a: seq<ProcessKey>, b: seq<ProcessKey>)
    requires forall k :: k in a <==> k in b
    ensures EvidenceOf(c, a) == EvidenceOf(c, b)
  {
    EvidenceOfMeans(c, a);
    EvidenceOfMeans(c, b);
    var ea, eb := EvidenceOf(c, a), EvidenceOf(c, b);
    forall path ensures path in ea <==> path in eb
      ensures path in ea ==> ea[path] == eb[path]
    {
      assert Observed(c, a, path) <==> Observed(c, b, path);
      assert OpenFile(c, a, path) <==> OpenFile(c, b, path);
    }
    assert ea.Keys == eb.Keys;
  }

  /** Evidence by root pid; of several processes with one root pid, the last with any evidence counts. */
  function Collect(c: Call, processes: seq<Process>): (e: PathEvidence)
    ensures forall pid :: pid in e ==> e[pid] != map[]
  {
    if processes == [] then map[]
    else
      WithEvidence(Collect(c, processes[..|processes| - 1]), processes[|processes| - 1].root.pid,
                   EvidenceOf(c, processes[|processes| - 1].members))
  }

  function WithEvidence(e: PathEvidence, pid: nat, evidence: map<Path, Evidence>): PathEvidence {
    if evidence != map[] then e[pid := evidence] else e
  }

  lemma CollectNext(c: Call, processes: seq<Process>, i: nat)
    requires i < |processes|
    ensures Collect(c, processes[..i + 1]) ==
      WithEvidence(Collect(c, processes[..i]), processes[i].root.pid, EvidenceOf(c, processes[i].members))
  {
    assert processes[..i + 1][..i] == processes[..i];
  }
}
