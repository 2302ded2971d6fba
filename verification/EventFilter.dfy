/** The event handler of the process loader: which events it reports, what it remembers of them, and why every
    report is justified. */
module EventFilter {
  import opened Wrappers
  import opened Probing
  import opened Words
  import opened FileLimiter
  import opened FileOpens
  import Tracker = PidTracker

  datatype FilterMode = All | Proc | Filter

  /** `session <= 0` means that no session was asked for; `target <= 0` that no pid was. */
  datatype Config = Config(mode: FilterMode, target: Pid, session: int, commands: seq<string>)

  datatype Seed = Seed(pid: Pid, ppid: Pid)

  /** An event from the ring buffer. `sid` is what the session lookup of the pid answers at that moment. */
  datatype Event =
    | Exec(pid: Pid, ppid: Pid, comm: string, sid: int)
    | Exit(pid: Pid, now: U64)
    | Readline(pid: Pid)
    | FileOp(open: Open, isOpen: bool, hash: U64, now: U64)
    | Unknown

  datatype Report =
    | ExecLine(pid: Pid)
    | ExitLine(pid: Pid)
    | RateWarning(pid: Pid)
    | ReadlineLine(pid: Pid)
    | FileLine(record: Record)
    | UnknownLine

  datatype State = State(table: seq<Tracker.Entry>, files: Files)

  // ----- the decisions

  predicate ShouldTrack(cfg: Config, tracked: bool, e: Event)
    requires e.Exec?
  {
    if cfg.session > 0 then e.sid == cfg.session
    else
      || cfg.mode != Filter
      || (cfg.target > 0 && e.pid == cfg.target)
      || tracked
      || e.comm in cfg.commands
  }

  predicate ReportsFileOps(cfg: Config, tracked: bool) {
    cfg.mode == All || tracked
  }

  predicate ReportsReadline(cfg: Config, tracked: bool) {
    cfg.mode != Filter || tracked
  }

  /** The lines of a sequence of records. */
  function FileLines(records: seq<Record>): (r: seq<Report>)
    ensures |r| == |records| && forall i :: 0 <= i < |r| ==> r[i] == FileLine(records[i])
  {
    seq(|records|, i requires 0 <= i < |records| => FileLine(records[i]))
  }

  // ----- one event

  function Handle(cfg: Config, s: State, e: Event): (State, seq<Report>)
    requires |s.table| > 0
  {
    match e
    case Exec(pid, ppid, _, _) =>
      if ShouldTrack(cfg, Tracker.IsTracked(s.table, ppid), e) || cfg.mode == Proc then
        (s.(table := Tracker.Add(s.table, pid, ppid).0), [ExecLine(pid)])
      else if cfg.mode == Filter then (s, [])
      else (s, [ExecLine(pid)])
    case Exit(pid, now) =>
      var s1 := s.(table := Tracker.Remove(s.table, pid));
      if !Tracker.IsTracked(s.table, pid) && cfg.mode == Filter then (s1, [])
      else
        var (files, out) := ReportExit(s.files, pid, now);
        (s1.(files := files), out)
    case Readline(pid) =>
      (s, if ReportsReadline(cfg, Tracker.IsTracked(s.table, pid)) then [ReadlineLine(pid)] else [])
    case FileOp(o, isOpen, hash, now) =>
      if !isOpen || !ReportsFileOps(cfg, Tracker.IsTracked(s.table, o.pid)) then (s, [])
      else
        var c := CountOpen(s.files, o, hash, now);
        (s.(files := c.files), FileLines(OpenLines(c, o, now)))
    case Unknown => (s, [UnknownLine])
  }

  function ReportExit(f: Files, pid: Pid, now: U64): (Files, seq<Report>) {
    var (files, records) := ExitPid(f, pid, now);
    (files, ExitLines(pid, ExitLimit(f.limits, pid).1) + FileLines(records))
  }

  function ExitLines(pid: Pid, warning: bool): seq<Report> {
    if warning then [ExitLine(pid), RateWarning(pid)] else [ExitLine(pid)]
  }

  function SeedTable(seeds: seq<Seed>): (t: seq<Tracker.Entry>)
    ensures |t| == Tracker.TABLE_SIZE
  {
    if seeds == [] then Tracker.EmptyTable()
    else Tracker.Add(SeedTable(seeds[..|seeds| - 1]), seeds[|seeds| - 1].pid, seeds[|seeds| - 1].ppid).0
  }

  function After(cfg: Config, seeds: seq<Seed>, evs: seq<Event>): (s: State)
    ensures |s.table| == Tracker.TABLE_SIZE
  {
    if evs == [] then State(SeedTable(seeds), Files([], []))
    else Handle(cfg, After(cfg, seeds, evs[..|evs| - 1]), evs[|evs| - 1]).0
  }

  /** What the handler prints for the last event of a run. */
  function LastReports(cfg: Config, seeds: seq<Seed>, evs: seq<Event>): seq<Report>
    requires evs != []
  {
    Handle(cfg, After(cfg, seeds, evs[..|evs| - 1]), evs[|evs| - 1]).1
  }

  // ----- justifications

  /** Why a pid may be reported: it was seeded, or one of its exec events matched by pid, command or session, or
      nothing is filtered, or its parent was tracked when it exec'd, and the parent was justified before that. */
  datatype Why =
    | Seeded
    | Targeted(at: nat)
    | Named(at: nat)
    | InSession(at: nat)
    | Unfiltered(at: nat)
    | ChildOf(at: nat, parent: Why)

  ghost predicate Justified(cfg: Config, seeds: seq<Seed>, evs: seq<Event>, pid: Pid, why: Why)
    decreases why
  {
    match why
    case Seeded => exists sd :: sd in seeds && sd.pid == pid
    case Targeted(at) => IsExecOf(evs, at, pid) && cfg.target > 0 && pid == cfg.target
    case Named(at) => IsExecOf(evs, at, pid) && evs[at].comm in cfg.commands
    case InSession(at) => IsExecOf(evs, at, pid) && cfg.session > 0 && evs[at].sid == cfg.session
    case Unfiltered(at) => IsExecOf(evs, at, pid) && cfg.mode != Filter
    case ChildOf(at, parent) =>
      && IsExecOf(evs, at, pid)
      && Tracker.IsTracked(After(cfg, seeds, evs[..at]).table, evs[at].ppid)
      && Justified(cfg, seeds, evs[..at], evs[at].ppid, parent)
  }

  predicate IsExecOf(evs: seq<Event>, at: nat, pid: Pid) {
    at < |evs| && evs[at].Exec? && evs[at].pid == pid
  }

  ghost predicate HasReason(cfg: Config, seeds: seq<Seed>, evs: seq<Event>, pid: Pid) {
    exists why :: Justified(cfg, seeds, evs, pid, why)
  }

  lemma ReasonLasts(cfg: Config, seeds: seq<Seed>, evs: seq<Event>, e: Event, pid: Pid)
    requires HasReason(cfg, seeds, evs, pid)
    ensures HasReason(cfg, seeds, evs + [e], pid)
  {
    var why :| Justified(cfg, seeds, evs, pid, why);
    if !why.Seeded? {
      assert (evs + [e])[..why.at] == evs[..why.at];
    }
    assert Justified(cfg, seeds, evs + [e], pid, why);
  }

  /** Everything the handler remembers about a pid -- an active slot, even one behind a broken probe chain, or a
      deduplication entry -- has a reason. */
  ghost predicate AllReasoned(cfg: Config, seeds: seq<Seed>, evs: seq<Event>, s: State) {
    && (forall i :: 0 <= i < |s.table| && s.table[i].active ==> HasReason(cfg, seeds, evs, s.table[i].pid))
    && (forall e :: e in s.files.entries ==> HasReason(cfg, seeds, evs, e.open.pid))
  }

  lemma AddReasoned(t: seq<Tracker.Entry>, pid: Pid, ppid: Pid)
    requires |t| > 0
    ensures var t' := Tracker.Add(t, pid, ppid).0;
      forall i :: 0 <= i < |t'| && t'[i].active ==> t'[i].pid == pid || (t[i].active && t[i].pid == t'[i].pid)
  {
  }

  lemma {:induction false} SeedsReasoned(cfg: Config, seeds: seq<Seed>, i: nat)
    requires i < Tracker.TABLE_SIZE && SeedTable(seeds)[i].active
    ensures exists sd :: sd in seeds && sd.pid == SeedTable(seeds)[i].pid
  {
    if seeds == [] {
      assert false;
    } else {
      var init, last := seeds[..|seeds| - 1], seeds[|seeds| - 1];
      assert last in seeds;
      AddReasoned(SeedTable(init), last.pid, last.ppid);
      if SeedTable(seeds)[i].pid != last.pid {
        SeedsReasoned(cfg, init, i);
        var sd :| sd in init && sd.pid == SeedTable(seeds)[i].pid;
        assert sd in seeds;
      }
    }
  }

  lemma ExecReasoned(cfg: Config, seeds: seq<Seed>, evs: seq<Event>, e: Event)
    requires cfg.mode == Filter && e.Exec?
    requires AllReasoned(cfg, seeds, evs, After(cfg, seeds, evs))
    requires ShouldTrack(cfg, Tracker.IsTracked(After(cfg, seeds, evs).table, e.ppid), e)
    ensures HasReason(cfg, seeds, evs + [e], e.pid)
  {
    var evs', at := evs + [e], |evs|;
    assert IsExecOf(evs', at, e.pid) && evs'[..at] == evs;
    if cfg.session > 0 {
      assert Justified(cfg, seeds, evs', e.pid, InSession(at));
    } else if cfg.target > 0 && e.pid == cfg.target {
      assert Justified(cfg, seeds, evs', e.pid, Targeted(at));
    } else if e.comm in cfg.commands {
      assert Justified(cfg, seeds, evs', e.pid, Named(at));
    } else {
      var why :| Justified(cfg, seeds, evs, e.ppid, why);
      assert Justified(cfg, seeds, evs', e.pid, ChildOf(at, why));
    }
  }

  /** The pids a report is about. */
  function PidOf(r: Report): Option<Pid> {
    match r
    case FileLine(record) => Some(record.open.pid)
    case UnknownLine => None
    case _ => Some(r.pid)
  }

  ghost predicate AllReportsReasoned(cfg: Config, seeds: seq<Seed>, evs: seq<Event>, out: seq<Report>) {
    forall r :: r in out && PidOf(r).Some? ==> HasReason(cfg, seeds, evs, PidOf(r).value)
  }

  lemma {:induction false} AggregatesFrom(entries: seq<FileEntry>, now: U64, kind: Kind, r: Record)
    requires r in Aggregates(entries, now, kind)
    ensures exists e :: e in entries && e.open == r.open
  {
    if r in Line(entries[0], now, kind) {
      assert entries[0] in entries && entries[0].open == r.open;
    } else {
      AggregatesFrom(entries[1..], now, kind, r);
      var e :| e in entries[1..] && e.open == r.open;
      assert e in entries;
    }
  }

  lemma {:induction false} OfPidFrom(entries: seq<FileEntry>, pid: Pid, e: FileEntry)
    requires e in OfPid(entries, pid)
    ensures e in entries
  {
    if !(entries[0].open.pid == pid && e == entries[0]) {
      OfPidFrom(entries[1..], pid, e);
    }
  }

  /** The entries and records of an open concern that open or entries that were there before. */
  lemma CountOpenFrom(f: Files, o: Open, hash: U64, now: U64)
    ensures var c := CountOpen(f, o, hash, now);
      && (forall e' :: e' in c.files.entries ==> e'.open == o || exists e :: e in f.entries && e.open == e'.open)
      && (forall r :: r in OpenLines(c, o, now) ==> r.open == o || exists e :: e in f.entries && e.open == r.open)
  {
    var c := CountOpen(f, o, hash, now);
    if c.passed {
      var swept := Sweep(f.entries, ExpiredAt(now), 0);
      SweptFrom(f.entries, ExpiredAt(now));
      forall r | r in OpenLines(c, o, now) ensures r.open == o || exists e :: e in f.entries && e.open == r.open {
        if r in c.printed {
          AggregatesFrom(swept.removed, now, WindowExpired, r);
        }
      }
    }
  }

  lemma SweptFrom(entries: seq<FileEntry>, drop: FileEntry -> bool)
    ensures var r := Sweep(entries, drop, 0);
      && (forall e :: e in r.kept ==> e in entries)
      && (forall e :: e in r.removed ==> e in entries)
  {
    var r := Sweep(entries, drop, 0);
    SweepIsExact(entries, drop, 0);
    forall e | e in r.kept || e in r.removed ensures e in entries {
      assert e in multiset(r.kept) || e in multiset(r.removed);
      assert e in multiset(entries);
    }
  }

  lemma ExitPidFrom(f: Files, pid: Pid, now: U64)
    ensures var (f', out) := ExitPid(f, pid, now);
      && (forall e :: e in f'.entries ==> e in f.entries)
      && (forall r :: r in out ==> exists e :: e in f.entries && e.open == r.open)
  {
    SweptFrom(f.entries, OwnedBy(pid));
    var out := ExitPid(f, pid, now).1;
    forall r | r in out ensures exists e :: e in f.entries && e.open == r.open {
      AggregatesFrom(OfPid(f.entries, pid), now, ProcessExit, r);
      var e :| e in OfPid(f.entries, pid) && e.open == r.open;
      OfPidFrom(f.entries, pid, e);
    }
  }

  lemma OldReasonsLast(cfg: Config, seeds: seq<Seed>, evs: seq<Event>, e: Event, s: State)
    requires AllReasoned(cfg, seeds, evs, s)
    ensures AllReasoned(cfg, seeds, evs + [e], s)
  {
    forall i | 0 <= i < |s.table| && s.table[i].active ensures HasReason(cfg, seeds, evs + [e], s.table[i].pid) {
      ReasonLasts(cfg, seeds, evs, e, s.table[i].pid);
    }
    forall en | en in s.files.entries ensures HasReason(cfg, seeds, evs + [e], en.open.pid) {
      ReasonLasts(cfg, seeds, evs, e, en.open.pid);
    }
  }

  lemma FilesReasoned(cfg: Config, seeds: seq<Seed>, evs: seq<Event>, f: Files, e: Event)
    requires forall en :: en in f.entries ==> HasReason(cfg, seeds, evs, en.open.pid)
    requires e.Exit? || e.FileOp?
    requires HasReason(cfg, seeds, evs, if e.Exit? then e.pid else e.open.pid)
    ensures var (f', out) := if e.Exit? then ReportExit(f, e.pid, e.now) else
        var c := CountOpen(f, e.open, e.hash, e.now); (c.files, FileLines(OpenLines(c, e.open, e.now)));
      && (forall en :: en in f'.entries ==> HasReason(cfg, seeds, evs, en.open.pid))
      && AllReportsReasoned(cfg, seeds, evs, out)
  {
    if e.Exit? {
      ExitPidFrom(f, e.pid, e.now);
    } else {
      CountOpenFrom(f, e.open, e.hash, e.now);
    }
  }

  lemma TrackedReasoned(cfg: Config, seeds: seq<Seed>, evs: seq<Event>, s: State, pid: Pid)
    requires |s.table| > 0 && AllReasoned(cfg, seeds, evs, s) && Tracker.IsTracked(s.table, pid)
    ensures HasReason(cfg, seeds, evs, pid)
  {
    var i := Tracker.Find(s.table, pid).value;
    assert s.table[i].active && s.table[i].pid == pid;
  }

  lemma StepReasoned(cfg: Config, seeds: seq<Seed>, evs: seq<Event>, e: Event)
    requires cfg.mode == Filter
    requires AllReasoned(cfg, seeds, evs, After(cfg, seeds, evs))
    ensures var (s', out) := Handle(cfg, After(cfg, seeds, evs), e);
      AllReasoned(cfg, seeds, evs + [e], s') && AllReportsReasoned(cfg, seeds, evs + [e], out)
  {
    var s := After(cfg, seeds, evs);
    OldReasonsLast(cfg, seeds, evs, e, s);
    match e {
      case Exec(pid, ppid, _, _) =>
        AddReasoned(s.table, pid, ppid);
        if ShouldTrack(cfg, Tracker.IsTracked(s.table, ppid), e) {
          ExecReasoned(cfg, seeds, evs, e);
        }
      case Exit(pid, now) =>
        if Tracker.IsTracked(s.table, pid) {
          TrackedReasoned(cfg, seeds, evs + [e], s, pid);
          FilesReasoned(cfg, seeds, evs + [e], s.files, e);
        }
      case Readline(pid) =>
        if Tracker.IsTracked(s.table, pid) {
          TrackedReasoned(cfg, seeds, evs + [e], s, pid);
        }
      case FileOp(o, isOpen, hash, now) =>
        if Tracker.IsTracked(s.table, o.pid) {
          TrackedReasoned(cfg, seeds, evs + [e], s, o.pid);
          FilesReasoned(cfg, seeds, evs + [e], s.files, e);
        }
      case Unknown =>
    }
  }

  lemma {:induction false} RunReasoned(cfg: Config, seeds: seq<Seed>, evs: seq<Event>)
    requires cfg.mode == Filter
    ensures AllReasoned(cfg, seeds, evs, After(cfg, seeds, evs))
  {
    if evs == [] {
      forall i | 0 <= i < Tracker.TABLE_SIZE && SeedTable(seeds)[i].active
        ensures HasReason(cfg, seeds, evs, SeedTable(seeds)[i].pid)
      {
        SeedsReasoned(cfg, seeds, i);
        assert Justified(cfg, seeds, evs, SeedTable(seeds)[i].pid, Seeded);
      }
    } else {
      SplitLast(evs);
      var init := evs[..|evs| - 1];
      RunReasoned(cfg, seeds, init);
      StepReasoned(cfg, seeds, init, evs[|evs| - 1]);
    }
  }

  lemma LastReportsReasoned(cfg: Config, seeds: seq<Seed>, evs: seq<Event>)
    requires cfg.mode == Filter && evs != []
    ensures AllReportsReasoned(cfg, seeds, evs, LastReports(cfg, seeds, evs))
  {
    SplitLast(evs);
    var init := evs[..|evs| - 1];
    RunReasoned(cfg, seeds, init);
    StepReasoned(cfg, seeds, init, evs[|evs| - 1]);
  }

  /** In filter mode, whatever the events and however broken the probe chains, each reported line is about a pid
      with a finite justification in the history so far. */
  lemma ReportsAreJustified(cfg: Config, seeds: seq<Seed>, evs: seq<Event>, r: Report)
    requires cfg.mode == Filter && evs != []
    requires r in LastReports(cfg, seeds, evs) && PidOf(r).Some?
    ensures HasReason(cfg, seeds, evs, PidOf(r).value)
  {
    LastReportsReasoned(cfg, seeds, evs);
  }

  // ----- the handler as a filter over a set of pids

  datatype SetState = SetState(live: set<Pid>, files: Files)

  /** The same handler with the table replaced by a set of at most 4096 pids. */
  function SetHandle(cfg: Config, s: SetState, e: Event): (SetState, seq<Report>) {
    match e
    case Exec(pid, ppid, _, _) =>
      if ShouldTrack(cfg, ppid in s.live, e) || cfg.mode == Proc then
        (if |s.live| < Tracker.TABLE_SIZE then s.(live := s.live + {pid}) else s, [ExecLine(pid)])
      else if cfg.mode == Filter then (s, [])
      else (s, [ExecLine(pid)])
    case Exit(pid, now) =>
      var s1 := s.(live := s.live - {pid});
      if pid !in s.live && cfg.mode == Filter then (s1, [])
      else
        var (files, out) := ReportExit(s.files, pid, now);
        (s1.(files := files), out)
    case Readline(pid) =>
      (s, if ReportsReadline(cfg, pid in s.live) then [ReadlineLine(pid)] else [])
    case FileOp(o, isOpen, hash, now) =>
      if !isOpen || !ReportsFileOps(cfg, o.pid in s.live) then (s, [])
      else
        var c := CountOpen(s.files, o, hash, now);
        (s.(files := c.files), FileLines(OpenLines(c, o, now)))
    case Unknown => (s, [UnknownLine])
  }

  /** The adds and removes the handler performs on the table. */
  function OpsOf(cfg: Config, s: State, e: Event): seq<Tracker.Op>
    requires |s.table| > 0
  {
    match e
    case Exec(pid, ppid, _, _) =>
      if ShouldTrack(cfg, Tracker.IsTracked(s.table, ppid), e) || cfg.mode == Proc then [Tracker.AddOp(pid, ppid)] else []
    case Exit(pid, _) => [Tracker.RemoveOp(pid)]
    case _ => []
  }

  function SeedOps(seeds: seq<Seed>): seq<Tracker.Op> {
    if seeds == [] then []
    else SeedOps(seeds[..|seeds| - 1]) + [Tracker.AddOp(seeds[|seeds| - 1].pid, seeds[|seeds| - 1].ppid)]
  }

  function TableOps(cfg: Config, seeds: seq<Seed>, evs: seq<Event>): seq<Tracker.Op> {
    if evs == [] then SeedOps(seeds)
    else
      var init := evs[..|evs| - 1];
      TableOps(cfg, seeds, init) + OpsOf(cfg, After(cfg, seeds, init), evs[|evs| - 1])
  }

  lemma RunAppend(ops: seq<Tracker.Op>, op: Tracker.Op)
    ensures Tracker.Run(ops + [op]) == Tracker.Apply(Tracker.Run(ops), op)
    ensures Tracker.SafeRun(ops + [op]) ==> Tracker.SafeRun(ops)
    ensures Tracker.SafeRun(ops + [op]) && op.RemoveOp? && Tracker.Find(Tracker.Run(ops), op.pid).Some? ==>
              Tracker.Unshared(Tracker.Run(ops), Tracker.Find(Tracker.Run(ops), op.pid).value)
  {
    assert (ops + [op])[..|ops|] == ops;
  }

  lemma {:induction false} SeedTableIsRun(seeds: seq<Seed>)
    ensures SeedTable(seeds) == Tracker.Run(SeedOps(seeds))
    ensures forall op :: op in SeedOps(seeds) ==> op.AddOp?
  {
    if seeds != [] {
      var init, last := seeds[..|seeds| - 1], seeds[|seeds| - 1];
      SeedTableIsRun(init);
      RunAppend(SeedOps(init), Tracker.AddOp(last.pid, last.ppid));
    }
  }

  lemma HandleTable(cfg: Config, s: State, e: Event)
    requires |s.table| > 0
    ensures var step := OpsOf(cfg, s, e);
      |step| <= 1 && Handle(cfg, s, e).0.table == if step == [] then s.table else Tracker.Apply(s.table, step[0])
  {
  }

  lemma RunExtend(ops: seq<Tracker.Op>, step: seq<Tracker.Op>)
    requires |step| <= 1
    ensures Tracker.Run(ops + step) ==
      if step == [] then Tracker.Run(ops) else Tracker.Apply(Tracker.Run(ops), step[0])
    ensures Tracker.SafeRun(ops + step) ==> Tracker.SafeRun(ops)
    ensures Tracker.SafeRun(ops + step) && step != [] && step[0].RemoveOp?
              && Tracker.Find(Tracker.Run(ops), step[0].pid).Some? ==>
              Tracker.Unshared(Tracker.Run(ops), Tracker.Find(Tracker.Run(ops), step[0].pid).value)
  {
    if step == [] {
      assert ops + step == ops;
    } else {
      assert step == [step[0]];
      RunAppend(ops, step[0]);
    }
  }

  lemma {:induction false} TableIsRun(cfg: Config, seeds: seq<Seed>, evs: seq<Event>)
    ensures After(cfg, seeds, evs).table == Tracker.Run(TableOps(cfg, seeds, evs))
  {
    if evs == [] {
      SeedTableIsRun(seeds);
    } else {
      var init := evs[..|evs| - 1];
      TableIsRun(cfg, seeds, init);
      var s := After(cfg, seeds, init);
      HandleTable(cfg, s, evs[|evs| - 1]);
      RunExtend(TableOps(cfg, seeds, init), OpsOf(cfg, s, evs[|evs| - 1]));
    }
  }

  function SeedSet(seeds: seq<Seed>): set<Pid> {
    if seeds == [] then {}
    else
      var live := SeedSet(seeds[..|seeds| - 1]);
      if |live| < Tracker.TABLE_SIZE then live + {seeds[|seeds| - 1].pid} else live
  }

  function SetAfter(cfg: Config, seeds: seq<Seed>, evs: seq<Event>): SetState {
    if evs == [] then SetState(SeedSet(seeds), Files([], []))
    else SetHandle(cfg, SetAfter(cfg, seeds, evs[..|evs| - 1]), evs[|evs| - 1]).0
  }

  ghost predicate SameView(s: State, a: SetState) {
    |s.table| == Tracker.TABLE_SIZE && Tracker.Refines(s.table, a.live) && s.files == a.files
  }

  lemma HandleIsSetHandle(cfg: Config, s: State, a: SetState, e: Event)
    requires SameView(s, a)
    requires e.Exit? && Tracker.Find(s.table, e.pid).Some? ==>
               Tracker.Unshared(s.table, Tracker.Find(s.table, e.pid).value)
    ensures Handle(cfg, s, e).1 == SetHandle(cfg, a, e).1
    ensures SameView(Handle(cfg, s, e).0, SetHandle(cfg, a, e).0)
  {
    match e {
      case Exec(pid, ppid, _, _) =>
        Tracker.RefinesDecides(s.table, a.live, ppid);
        Tracker.StepRefines(s.table, a.live, Tracker.AddOp(pid, ppid));
      case Exit(pid, _) =>
        Tracker.RefinesDecides(s.table, a.live, pid);
        Tracker.StepRefines(s.table, a.live, Tracker.RemoveOp(pid));
      case Readline(pid) => Tracker.RefinesDecides(s.table, a.live, pid);
      case FileOp(o, _, _, _) => Tracker.RefinesDecides(s.table, a.live, o.pid);
      case Unknown =>
    }
  }

  lemma {:induction false} SeedsSameView(seeds: seq<Seed>)
    ensures Tracker.Refines(SeedTable(seeds), SeedSet(seeds))
  {
    if seeds == [] {
      Tracker.EmptyRefines();
    } else {
      var init, last := seeds[..|seeds| - 1], seeds[|seeds| - 1];
      SeedsSameView(init);
      Tracker.StepRefines(SeedTable(init), SeedSet(init), Tracker.AddOp(last.pid, last.ppid));
    }
  }

  lemma SeedNext(seeds: seq<Seed>, last: Seed)
    ensures SeedTable(seeds + [last]) == Tracker.Add(SeedTable(seeds), last.pid, last.ppid).0
    ensures var live := SeedSet(seeds);
      SeedSet(seeds + [last]) == if |live| < Tracker.TABLE_SIZE then live + {last.pid} else live
  {
    assert (seeds + [last])[..|seeds|] == seeds;
  }

  lemma NewIfRoom(t: seq<Tracker.Entry>, live: set<Pid>, pid: Pid, ppid: Pid)
    requires |t| > 0 && Tracker.Refines(t, live)
    ensures !Tracker.IsTracked(t, pid) && Tracker.Add(t, pid, ppid).1 <==> pid !in live && |live| < |t|
  {
    Tracker.RefinesDecides(t, live, pid);
    Tracker.AddRefines(t, live, pid, ppid);
  }

  lemma SizeWith(live: set<Pid>, pid: Pid)
    ensures |live + {pid}| == |live| + if pid in live then 0 else 1
  {
    if pid in live {
      assert live + {pid} == live;
    }
  }

  /** One more seed is a new pid of the set exactly when it was not tracked before and fits. */
  lemma SeedCounts(seeds: seq<Seed>, last: Seed)
    ensures var t := SeedTable(seeds);
      var isNew := !Tracker.IsTracked(t, last.pid) && Tracker.Add(t, last.pid, last.ppid).1;
      |SeedSet(seeds + [last])| == |SeedSet(seeds)| + if isNew then 1 else 0
  {
    SeedNext(seeds, last);
    SeedsSameView(seeds);
    NewIfRoom(SeedTable(seeds), SeedSet(seeds), last.pid, last.ppid);
    SizeWith(SeedSet(seeds), last.pid);
  }

  /** Every seeded pid fits until the table is full. */
  lemma {:induction false} SeedsFit(seeds: seq<Seed>)
    ensures var pids := set sd | sd in seeds :: sd.pid;
      SeedSet(seeds) <= pids && (SeedSet(seeds) == pids || |SeedSet(seeds)| == Tracker.TABLE_SIZE)
  {
    if seeds != [] {
      var init, last := seeds[..|seeds| - 1], seeds[|seeds| - 1];
      SeedsFit(init);
      assert seeds == init + [last];
      assert (set sd | sd in seeds :: sd.pid) == (set sd | sd in init :: sd.pid) + {last.pid};
      SeedsSameView(init);
      Tracker.RefinesSize(SeedTable(init), SeedSet(init));
    }
  }

  /** While no exit frees a slot another live pid has probed over, the handler is a filter over a set: same
      state, and the same lines for every event. */
  lemma {:induction false} SafeRunsFilterBySet(cfg: Config, seeds: seq<Seed>, evs: seq<Event>)
    requires Tracker.SafeRun(TableOps(cfg, seeds, evs))
    ensures SameView(After(cfg, seeds, evs), SetAfter(cfg, seeds, evs))
    ensures evs == [] ||
      LastReports(cfg, seeds, evs) == SetHandle(cfg, SetAfter(cfg, seeds, evs[..|evs| - 1]), evs[|evs| - 1]).1
  {
    if evs == [] {
      SeedsSameView(seeds);
    } else {
      var init, last := evs[..|evs| - 1], evs[|evs| - 1];
      var ops, step := TableOps(cfg, seeds, init), OpsOf(cfg, After(cfg, seeds, init), last);
      HandleTable(cfg, After(cfg, seeds, init), last);
      RunExtend(ops, step);
      TableIsRun(cfg, seeds, init);
      SafeRunsFilterBySet(cfg, seeds, init);
      HandleIsSetHandle(cfg, After(cfg, seeds, init), SetAfter(cfg, seeds, init), last);
    }
  }

  // ----- conservation over what the handler prints

  /** The file-open lines of a sequence of reports. */
  function Records(out: seq<Report>): seq<Record> {
    if out == [] then []
    else (if out[0].FileLine? then [out[0].record] else []) + Records(out[1..])
  }

  lemma {:induction false} RecordsAppend(a: seq<Report>, b: seq<Report>)
    ensures Records(a + b) == Records(a) + Records(b)
  {
    if a == [] {
      assert a + b == b;
    } else {
      assert (a + b)[1..] == a[1..] + b;
      RecordsAppend(a[1..], b);
      var head, x, y := if a[0].FileLine? then [a[0].record] else [], Records(a[1..]), Records(b);
      assert head + (x + y) == head + x + y;
    }
  }

  lemma {:induction false} RecordsOfLines(records: seq<Record>)
    ensures Records(FileLines(records)) == records
  {
    if records != [] {
      assert FileLines(records)[1..] == FileLines(records[1..]);
      RecordsOfLines(records[1..]);
    }
  }

  /** The file events the handler lets through: opens it reports on, and exits it does not ignore. */
  function FileEventsOf(cfg: Config, s: State, e: Event): seq<FileEvent>
    requires |s.table| > 0
  {
    match e
    case Exit(pid, now) =>
      if !Tracker.IsTracked(s.table, pid) && cfg.mode == Filter then [] else [Exited(pid, now)]
    case FileOp(o, isOpen, hash, now) =>
      if !isOpen || !ReportsFileOps(cfg, Tracker.IsTracked(s.table, o.pid)) then [] else [Opened(o, hash, now)]
    case _ => []
  }

  function FileEvents(cfg: Config, seeds: seq<Seed>, evs: seq<Event>): seq<FileEvent> {
    if evs == [] then []
    else
      var init := evs[..|evs| - 1];
      FileEvents(cfg, seeds, init) + FileEventsOf(cfg, After(cfg, seeds, init), evs[|evs| - 1])
  }

  function AllReports(cfg: Config, seeds: seq<Seed>, evs: seq<Event>): seq<Report> {
    if evs == [] then [] else AllReports(cfg, seeds, evs[..|evs| - 1]) + LastReports(cfg, seeds, evs)
  }

  /** The tables and the lines are those of at most one file event after `run`. */
  ghost predicate FileStep(run: RunState, step: seq<FileEvent>, f: Files, out: seq<Report>) {
    if step == [] then f == run.files && Records(out) == []
    else |step| == 1 && f == StepRun(run, step[0]).files && StepRun(run, step[0]).out == run.out + Records(out)
  }

  lemma ExitFileStep(run: RunState, pid: Pid, now: U64)
    ensures var (f, out) := ReportExit(run.files, pid, now); FileStep(run, [Exited(pid, now)], f, out)
  {
    ExitRecords(run.files, pid, now);
  }

  lemma OpenFileStep(run: RunState, o: Open, hash: U64, now: U64)
    ensures var c := CountOpen(run.files, o, hash, now);
      FileStep(run, [Opened(o, hash, now)], c.files, FileLines(OpenLines(c, o, now)))
  {
    RecordsOfLines(OpenLines(CountOpen(run.files, o, hash, now), o, now));
  }

  lemma HandleFileStep(cfg: Config, s: State, e: Event, run: RunState)
    requires |s.table| > 0 && run.files == s.files
    ensures var (s', out) := Handle(cfg, s, e); FileStep(run, FileEventsOf(cfg, s, e), s'.files, out)
  {
    match e {
      case Exit(pid, now) => ExitFileStep(run, pid, now);
      case FileOp(o, _, hash, now) => OpenFileStep(run, o, hash, now);
      case _ =>
    }
  }

  lemma ExitRecords(f: Files, pid: Pid, now: U64)
    ensures Records(ReportExit(f, pid, now).1) == ExitPid(f, pid, now).1
  {
    var records := ExitPid(f, pid, now).1;
    var head := ExitLines(pid, ExitLimit(f.limits, pid).1);
    RecordsOfLines(records);
    RecordsAppend(head, FileLines(records));
    assert Records(head) == [];
  }

  ghost predicate FilesOfRun(f: Files, out: seq<Report>, fevs: seq<FileEvent>) {
    RunFiles(fevs).files == f && RunFiles(fevs).out == Records(out)
  }

  lemma FilesRunOn(cfg: Config, s: State, e: Event, out: seq<Report>, fevs: seq<FileEvent>)
    requires |s.table| > 0 && FilesOfRun(s.files, out, fevs)
    ensures var (s', lines) := Handle(cfg, s, e); FilesOfRun(s'.files, out + lines, fevs + FileEventsOf(cfg, s, e))
  {
    var step := FileEventsOf(cfg, s, e);
    HandleFileStep(cfg, s, e, RunFiles(fevs));
    RecordsAppend(out, Handle(cfg, s, e).1);
    if step == [] {
      assert fevs + step == fevs;
    } else {
      assert step == [step[0]];
      RunFilesNext(fevs, step[0]);
    }
  }

  lemma {:induction false} FilesAreRun(cfg: Config, seeds: seq<Seed>, evs: seq<Event>)
    ensures FilesOfRun(After(cfg, seeds, evs).files, AllReports(cfg, seeds, evs), FileEvents(cfg, seeds, evs))
  {
    if evs != [] {
      var init := evs[..|evs| - 1];
      FilesAreRun(cfg, seeds, init);
      FilesRunOn(cfg, After(cfg, seeds, init), evs[|evs| - 1], AllReports(cfg, seeds, init), FileEvents(cfg, seeds, init));
    }
  }

  /** The handler's limiter table is what the opens and exits it let through make of it. */
  lemma HandlerLimiterIsHistories(cfg: Config, seeds: seq<Seed>, evs: seq<Event>)
    ensures LimitsRepresent(After(cfg, seeds, evs).files.limits, HistoriesOf(FileEvents(cfg, seeds, evs)))
  {
    FilesAreRun(cfg, seeds, evs);
    LimiterIsHistories(FileEvents(cfg, seeds, evs));
  }

  /** Conservation for the whole handler: over everything it printed, counts less one per aggregate line, plus
      what is still owed, are the opens that passed the limiter -- exactly when no counter wraps. */
  lemma HandlerConservesOpens(cfg: Config, seeds: seq<Seed>, evs: seq<Event>)
    ensures var out, fevs := Records(AllReports(cfg, seeds, evs)), FileEvents(cfg, seeds, evs);
      var owed, passed := Owed(After(cfg, seeds, evs).files.entries, Everything()), RunFiles(fevs).passed;
      CountsOf(out) + owed == passed + AggregateLines(out) <==> NoCounterWraps(fevs)
  {
    FilesAreRun(cfg, seeds, evs);
    OpensConservedIffNoWrap(FileEvents(cfg, seeds, evs));
  }

  // ----- the loader's own state

  class Loader {
    const cfg: Config
    const tracker: Tracker.PidTable
    const tables: FileTables

    ghost const Repr: set<object>

    ghost predicate Valid()
      reads this, Repr
    {
      && Repr == {tracker, tracker.entries, tables, tables.fileHashes, tables.pidLimits}
      && tracker.Valid() && tables.Valid()
    }

    ghost function Current(): State
      requires Valid()
      reads this, Repr
    {
      State(tracker.entries[..], tables.State())
    }

    constructor (cfg: Config)
      ensures Valid() && fresh(Repr) && this.cfg == cfg
      ensures Current() == After(cfg, [], [])
    {
      this.cfg := cfg;
      var t := new Tracker.PidTable();
      var f := new FileTables();
      tracker, tables := t, f;
      Repr := {t, t.entries, f, f.fileHashes, f.pidLimits};
    }

    /** Adds every seed that fits; answers how many pids that makes, a pid seeded twice counting once. */
    method SeedInitialPids(seeds: seq<Seed>) returns (trackedCount: nat)
      requires Valid() && Current() == After(cfg, [], [])
      modifies Repr
      ensures Valid() && Current() == After(cfg, seeds, [])
      ensures trackedCount == |SeedSet(seeds)|
    {
      trackedCount := 0;
      var i := 0;
      assert seeds[..0] == [];
      while i < |seeds|
        invariant i <= |seeds| && Valid()
        invariant Current() == State(SeedTable(seeds[..i]), Files([], []))
        invariant trackedCount == |SeedSet(seeds[..i])|
      {
        SeedNext(seeds[..i], seeds[i]);
        SeedCounts(seeds[..i], seeds[i]);
        assert seeds[..i + 1] == seeds[..i] + [seeds[i]];
        var already := tracker.IsTrackedPid(seeds[i].pid);
        var ok := tracker.AddPid(seeds[i].pid, seeds[i].ppid);
        if ok && !already {
          trackedCount := trackedCount + 1;
        }
        i := i + 1;
      }
      assert seeds[..i] == seeds;
    }

    method HandleEvent(e: Event) returns (out: seq<Report>)
      requires Valid()
      modifies Repr
      ensures Valid()
      ensures (Current(), out) == Handle(cfg, old(Current()), e)
    {
      out := [];
      match e {
        case Exec(pid, ppid, comm, sid) =>
          var track := ShouldTrackEventProcess(e);
          if track {
            var _ := tracker.AddPid(pid, ppid);
            out := [ExecLine(pid)];
          } else if cfg.mode != Filter {
            if cfg.mode == Proc {
              var _ := tracker.AddPid(pid, ppid);
            }
            out := [ExecLine(pid)];
          }
        case Exit(pid, now) =>
          var isTracked := tracker.IsTrackedPid(pid);
          tracker.RemovePid(pid);
          if isTracked || cfg.mode != Filter {
            out := FinishExit(pid, now);
          }
        case Readline(pid) =>
          var report := cfg.mode != Filter;
          if cfg.mode == Filter {
            report := tracker.IsTrackedPid(pid);
          }
          if report {
            out := [ReadlineLine(pid)];
          }
        case FileOp(o, isOpen, hash, now) =>
          if isOpen {
            var report := cfg.mode == All;
            if !report {
              report := tracker.IsTrackedPid(o.pid);
            }
            if report {
              out := ReportOpen(o, hash, now);
            }
          }
        case Unknown =>
          out := [UnknownLine];
      }
    }

    method FinishExit(pid: Pid, now: U64) returns (out: seq<Report>)
      requires Valid()
      modifies tables, tables.fileHashes, tables.pidLimits
      ensures Valid() && tracker.entries[..] == old(tracker.entries[..])
      ensures (tables.State(), out) == ReportExit(old(tables.State()), pid, now)
    {
      var warning := tables.ClearPendingWarning(pid);
      out := [ExitLine(pid)];
      if warning {
        out := out + [RateWarning(pid)];
      }
      ghost var f := old(tables.State());
      assert out == ExitLines(pid, warning);
      assert tables.State() == f.(limits := ExitLimit(f.limits, pid).0);
      var records := tables.FlushPidFileOpens(pid, now);
      out := out + FileLines(records);
    }

    method ReportOpen(o: Open, hash: U64, now: U64) returns (out: seq<Report>)
      requires Valid()
      modifies tables, tables.fileHashes, tables.pidLimits
      ensures Valid() && tracker.entries[..] == old(tracker.entries[..])
      ensures var c := CountOpen(old(tables.State()), o, hash, now);
        tables.State() == c.files && out == FileLines(OpenLines(c, o, now))
    {
      var count, warning, printed, passed := tables.GetFileOpenCount(o, hash, now);
      if count != 0 {
        printed := printed + [Record(now, o, count, Plain(warning))];
      }
      out := FileLines(printed);
    }

    method ShouldTrackEventProcess(e: Event) returns (track: bool)
      requires Valid() && e.Exec?
      ensures track == ShouldTrack(cfg, Tracker.IsTracked(tracker.entries[..], e.ppid), e)
    {
      if cfg.session > 0 {
        return e.sid == cfg.session;
      }
      if cfg.mode != Filter {
        return true;
      }
      if cfg.target > 0 && e.pid == cfg.target {
        return true;
      }
      var parent := tracker.IsTrackedPid(e.ppid);
      if parent {
        return true;
      }
      return e.comm in cfg.commands;
    }
  }
}
