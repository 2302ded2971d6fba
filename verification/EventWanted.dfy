/** Whom the process loader follows and what it reports of them, read off the events alone: no table, no probe chains. */
module EventWanted {
  import opened Probing
  import opened Words
  import opened FileLimiter
  import opened FileOpens
  import opened FileSteps
  import opened EventFilter
  import Tracker = PidTracker

  // ----- the wanted pids

  /** An exec makes its pid wanted: by session alone if one is asked for, otherwise because nothing is filtered, or by
      pid, by command or by a wanted parent. Without a filter on sessions the mode for processes takes everybody. */
  predicate Joins(cfg: Config, wanted: set<Pid>, e: Event)
    requires e.Exec?
  {
    match cfg.mode
    case Proc => true
    case All => cfg.session > 0 ==> e.sid == cfg.session
    case Filter =>
      if cfg.session > 0 then e.sid == cfg.session
      else (cfg.target > 0 && e.pid == cfg.target) || e.comm in cfg.commands || e.ppid in wanted
  }

  /** At most 4096 pids are held. */
  function Enter(wanted: set<Pid>, pid: Pid): set<Pid> {
    if |wanted| < 4096 then wanted + {pid} else wanted
  }

  function Seeds(seeds: seq<Seed>): set<Pid> {
    if seeds == [] then {} else Enter(Seeds(seeds[..|seeds| - 1]), seeds[|seeds| - 1].pid)
  }

  function Wanted(cfg: Config, seeds: seq<Seed>, evs: seq<Event>): set<Pid> {
    if evs == [] then Seeds(seeds)
    else
      var wanted, e := Wanted(cfg, seeds, evs[..|evs| - 1]), evs[|evs| - 1];
      match e
      case Exec(pid, _, _, _) => if Joins(cfg, wanted, e) then Enter(wanted, pid) else wanted
      case Exit(pid, _) => wanted - {pid}
      case _ => wanted
  }

  lemma {:induction false} SeedsAreSeedSet(seeds: seq<Seed>)
    ensures SeedSet(seeds) == Seeds(seeds)
  {
    if seeds != [] {
      SeedsAreSeedSet(seeds[..|seeds| - 1]);
    }
  }

  lemma {:induction false} WantedIsLive(cfg: Config, seeds: seq<Seed>, evs: seq<Event>)
    ensures SetAfter(cfg, seeds, evs).live == Wanted(cfg, seeds, evs)
  {
    if evs == [] {
      SeedsAreSeedSet(seeds);
    } else {
      WantedIsLive(cfg, seeds, evs[..|evs| - 1]);
    }
  }

  /** In every safe run exactly the wanted pids are tracked. */
  lemma TrackedIffWanted(cfg: Config, seeds: seq<Seed>, evs: seq<Event>, pid: Pid)
    requires Tracker.SafeRun(TableOps(cfg, seeds, evs))
    ensures Tracker.IsTracked(After(cfg, seeds, evs).table, pid) <==> pid in Wanted(cfg, seeds, evs)
  {
    SafeRunsFilterBySet(cfg, seeds, evs);
    WantedIsLive(cfg, seeds, evs);
    Tracker.RefinesDecides(After(cfg, seeds, evs).table, SetAfter(cfg, seeds, evs).live, pid);
  }

  // ----- what is reported

  /** What an open of a followed process must do: nothing if its pid is over the limit, and otherwise what an open
      does. */
  ghost predicate OpensAsAsked(h: Histories, f: Files, o: Open, hash: U64, now: U64, f': Files, lines: seq<Record>) {
    var second := now / NS_PER_SECOND;
    if OverLimit(AskHistory(h, o.pid, second), o.pid) then f'.entries == f.entries && lines == []
    else OpensExactly(f.entries, o, hash, now, NewSecond(h, o.pid, second) && Overfull(h, o.pid), f'.entries, lines)
  }

  ghost predicate OpenReported(h: Histories, f: Files, o: Open, hash: U64, now: U64, f': Files, out: seq<Report>) {
    exists lines: seq<Record> :: OpensAsAsked(h, f, o, hash, now, f', lines) && out == FileLines(lines)
  }

  /** What an exit that is reported must do: its line, the pending warning, and the pid's repeats. */
  ghost predicate ExitReported(h: Histories, f: Files, pid: Pid, now: U64, f': Files, out: seq<Report>) {
    exists lines: seq<Record> ::
      && ExitsExactly(f.entries, pid, now, f'.entries, lines)
      && out == [ExitLine(pid)] + (if Overfull(h, pid) then [RateWarning(pid)] else []) + FileLines(lines)
  }

  /** What the loader must do with an event: who is reported depends on the wanted pids and the mode alone, what is
      reported of files on the table and the histories of seconds. */
  ghost predicate HandlesExactly(cfg: Config, wanted: set<Pid>, h: Histories, f: Files, e: Event, f': Files, out: seq<Report>) {
    match e
    case Exec(pid, _, _, _) =>
      f' == f && out == if cfg.mode != Filter || Joins(cfg, wanted, e) then [ExecLine(pid)] else []
    case Exit(pid, now) =>
      if cfg.mode == Filter && pid !in wanted then f' == f && out == []
      else ExitReported(h, f, pid, now, f', out)
    case Readline(pid) =>
      f' == f && out == if cfg.mode != Filter || pid in wanted then [ReadlineLine(pid)] else []
    case FileOp(o, isOpen, hash, now) =>
      if !isOpen || (cfg.mode != All && o.pid !in wanted) then f' == f && out == []
      else OpenReported(h, f, o, hash, now, f', out)
    case Unknown => f' == f && out == [UnknownLine]
  }

  lemma OpenIsAsAsked(h: Histories, f: Files, o: Open, hash: U64, now: U64)
    requires LimitsRepresent(f.limits, h)
    ensures var c := CountOpen(f, o, hash, now); OpensAsAsked(h, f, o, hash, now, c.files, OpenLines(c, o, now))
  {
    LimiterCountsRuns(f.limits, h, o.pid, now / NS_PER_SECOND);
    CountedAsLimited(f, o, hash, now);
    if CountOpen(f, o, hash, now).passed {
      PassedOpensExactly(f, o, hash, now);
    }
  }

  lemma ExitIsReported(h: Histories, f: Files, pid: Pid, now: U64)
    requires LimitsRepresent(f.limits, h)
    ensures var (f', out) := ReportExit(f, pid, now); ExitReported(h, f, pid, now, f', out)
  {
    ExitPidExits(f, pid, now);
    ExitFreesOverfull(f.limits, h, pid);
    var lines := ExitPid(f, pid, now).1;
    assert ExitLines(pid, Overfull(h, pid)) == [ExitLine(pid)] + if Overfull(h, pid) then [RateWarning(pid)] else [];
    assert ReportExit(f, pid, now).1 == ExitLines(pid, Overfull(h, pid)) + FileLines(lines);
  }

  lemma OpenIsReported(h: Histories, f: Files, o: Open, hash: U64, now: U64)
    requires LimitsRepresent(f.limits, h)
    ensures var c := CountOpen(f, o, hash, now); OpenReported(h, f, o, hash, now, c.files, FileLines(OpenLines(c, o, now)))
  {
    OpenIsAsAsked(h, f, o, hash, now);
  }

  lemma HandleIsExact(cfg: Config, s: State, wanted: set<Pid>, h: Histories, e: Event)
    requires |s.table| > 0 && LimitsRepresent(s.files.limits, h)
    requires forall q :: Tracker.IsTracked(s.table, q) <==> q in wanted
    ensures var (s', out) := Handle(cfg, s, e); HandlesExactly(cfg, wanted, h, s.files, e, s'.files, out)
  {
    match e {
      case Exec(pid, ppid, _, _) => assert Tracker.IsTracked(s.table, ppid) <==> ppid in wanted;
      case Exit(pid, now) =>
        assert Tracker.IsTracked(s.table, pid) <==> pid in wanted;
        ExitIsReported(h, s.files, pid, now);
      case Readline(pid) => assert Tracker.IsTracked(s.table, pid) <==> pid in wanted;
      case FileOp(o, _, hash, now) =>
        assert Tracker.IsTracked(s.table, o.pid) <==> o.pid in wanted;
        OpenIsReported(h, s.files, o, hash, now);
      case Unknown =>
    }
  }

  /** In every safe run each event is handled exactly as the wanted pids demand. */
  lemma EventIsHandledExactly(cfg: Config, seeds: seq<Seed>, evs: seq<Event>, e: Event)
    requires Tracker.SafeRun(TableOps(cfg, seeds, evs))
    ensures HandlesExactly(cfg, Wanted(cfg, seeds, evs), HistoriesOf(FileEvents(cfg, seeds, evs)),
                           After(cfg, seeds, evs).files, e, After(cfg, seeds, evs + [e]).files,
                           LastReports(cfg, seeds, evs + [e]))
  {
    var s, wanted := After(cfg, seeds, evs), Wanted(cfg, seeds, evs);
    assert (evs + [e])[..|evs|] == evs;
    forall q ensures Tracker.IsTracked(s.table, q) <==> q in wanted {
      TrackedIffWanted(cfg, seeds, evs, q);
    }
    HandlerLimiterIsHistories(cfg, seeds, evs);
    HandleIsExact(cfg, s, wanted, HistoriesOf(FileEvents(cfg, seeds, evs)), e);
  }

  // ----- who is wanted

  predicate IsExit(e: Event, pid: Pid) {
    e.Exit? && e.pid == pid
  }

  predicate NoExitFrom(evs: seq<Event>, i: nat, pid: Pid) {
    forall k :: i <= k < |evs| ==> !IsExit(evs[k], pid)
  }

  /** Every exec counts: in the mode for processes, and when neither mode nor session filters. */
  predicate Everybody(cfg: Config) {
    cfg.mode == Proc || (cfg.mode == All && cfg.session <= 0)
  }

  predicate BySession(cfg: Config) {
    cfg.mode != Proc && cfg.session > 0
  }

  predicate ByFilter(cfg: Config) {
    cfg.mode == Filter && cfg.session <= 0
  }

  /** Why a pid is wanted still: it was seeded or exec'd, has not exited since, and -- unless everybody is wanted -- was
      then in the session asked for or, if none is asked for, was the target, had a command of the list, or had a parent
      that was wanted at that moment. */
  ghost predicate Stays(cfg: Config, seeds: seq<Seed>, evs: seq<Event>, pid: Pid, why: Why)
    decreases why
  {
    match why
    case Seeded => IsSeed(seeds, pid) && NoExitFrom(evs, 0, pid)
    case Unfiltered(at) => Execd(evs, at, pid) && Everybody(cfg)
    case InSession(at) => Execd(evs, at, pid) && BySession(cfg) && evs[at].sid == cfg.session
    case Targeted(at) => Execd(evs, at, pid) && ByFilter(cfg) && cfg.target > 0 && pid == cfg.target
    case Named(at) => Execd(evs, at, pid) && ByFilter(cfg) && evs[at].comm in cfg.commands
    case ChildOf(at, parent) =>
      Execd(evs, at, pid) && ByFilter(cfg) && Stays(cfg, seeds, evs[..at], evs[at].ppid, parent)
  }

  ghost predicate IsSeed(seeds: seq<Seed>, pid: Pid) {
    exists i :: 0 <= i < |seeds| && seeds[i].pid == pid
  }

  /** Event `at` is an exec of the pid, and it has not exited since. */
  predicate Execd(evs: seq<Event>, at: nat, pid: Pid) {
    IsExecOf(evs, at, pid) && NoExitFrom(evs, at, pid)
  }

  ghost predicate HasCause(cfg: Config, seeds: seq<Seed>, evs: seq<Event>, pid: Pid) {
    exists why :: Stays(cfg, seeds, evs, pid, why)
  }

  /** The pids that were ever seeded or exec'd. */
  function EverSeen(seeds: seq<Seed>, evs: seq<Event>): set<Pid> {
    (set i | 0 <= i < |seeds| :: seeds[i].pid) + (set k | 0 <= k < |evs| && evs[k].Exec? :: evs[k].pid)
  }

  // ----- one event more

  lemma NoExitNext(evs: seq<Event>, e: Event, i: nat, pid: Pid)
    requires i <= |evs|
    ensures NoExitFrom(evs + [e], i, pid) <==> NoExitFrom(evs, i, pid) && !IsExit(e, pid)
  {
    var evs' := evs + [e];
    if NoExitFrom(evs', i, pid) {
      assert evs'[|evs|] == e;
      assert forall k :: i <= k < |evs| ==> evs'[k] == evs[k];
    }
  }

  /** A cause outlives every event but the pid's exit. */
  lemma CauseNext(cfg: Config, seeds: seq<Seed>, evs: seq<Event>, e: Event, pid: Pid, why: Why)
    requires why.Seeded? || why.at < |evs|
    ensures Stays(cfg, seeds, evs + [e], pid, why) <==> Stays(cfg, seeds, evs, pid, why) && !IsExit(e, pid)
  {
    var at := if why.Seeded? then 0 else why.at;
    NoExitNext(evs, e, at, pid);
    if !why.Seeded? {
      assert (evs + [e])[at] == evs[at] && (evs + [e])[..at] == evs[..at];
    }
  }

  /** The exec that comes last gives its pid a cause. */
  ghost predicate HasNewCause(cfg: Config, seeds: seq<Seed>, evs: seq<Event>, e: Event) {
    e.Exec? && match cfg.mode
      case Proc => true
      case All => cfg.session > 0 ==> e.sid == cfg.session
      case Filter =>
        if cfg.session > 0 then e.sid == cfg.session
        else (cfg.target > 0 && e.pid == cfg.target) || e.comm in cfg.commands || HasCause(cfg, seeds, evs, e.ppid)
  }

  lemma NewCause(cfg: Config, seeds: seq<Seed>, evs: seq<Event>, e: Event)
    requires HasNewCause(cfg, seeds, evs, e)
    ensures HasCause(cfg, seeds, evs + [e], e.pid)
  {
    var evs', at := evs + [e], |evs|;
    assert evs'[..at] == evs && Execd(evs', at, e.pid);
    if Everybody(cfg) {
      assert Stays(cfg, seeds, evs', e.pid, Unfiltered(at));
    } else if BySession(cfg) {
      assert Stays(cfg, seeds, evs', e.pid, InSession(at));
    } else if cfg.target > 0 && e.pid == cfg.target {
      assert Stays(cfg, seeds, evs', e.pid, Targeted(at));
    } else if e.comm in cfg.commands {
      assert Stays(cfg, seeds, evs', e.pid, Named(at));
    } else {
      var why :| Stays(cfg, seeds, evs, e.ppid, why);
      assert Stays(cfg, seeds, evs', e.pid, ChildOf(at, why));
    }
  }

  lemma LastCause(cfg: Config, seeds: seq<Seed>, evs: seq<Event>, e: Event, pid: Pid, why: Why)
    requires Stays(cfg, seeds, evs + [e], pid, why) && !why.Seeded? && why.at == |evs|
    ensures e.Exec? && e.pid == pid && HasNewCause(cfg, seeds, evs, e)
  {
    assert (evs + [e])[..|evs|] == evs;
  }

  lemma CauseIff(cfg: Config, seeds: seq<Seed>, evs: seq<Event>, e: Event, pid: Pid)
    ensures HasCause(cfg, seeds, evs + [e], pid) <==>
      (HasCause(cfg, seeds, evs, pid) && !IsExit(e, pid)) || (HasNewCause(cfg, seeds, evs, e) && e.pid == pid)
  {
    if HasCause(cfg, seeds, evs, pid) && !IsExit(e, pid) {
      var why :| Stays(cfg, seeds, evs, pid, why);
      CauseNext(cfg, seeds, evs, e, pid, why);
    } else if HasNewCause(cfg, seeds, evs, e) && e.pid == pid {
      NewCause(cfg, seeds, evs, e);
    } else if HasCause(cfg, seeds, evs + [e], pid) {
      var why :| Stays(cfg, seeds, evs + [e], pid, why);
      if why.Seeded? || why.at < |evs| {
        CauseNext(cfg, seeds, evs, e, pid, why);
      } else {
        LastCause(cfg, seeds, evs, e, pid, why);
      }
      assert false;
    }
  }

  // ----- while there is room for everybody

  lemma SubsetSize(a: set<Pid>, b: set<Pid>)
    requires a <= b
    ensures |a| <= |b|
    ensures |a| == |b| ==> a == b
  {
    if a != {} {
      var x :| x in a;
      SubsetSize(a - {x}, b - {x});
      if |a| == |b| {
        assert a == (a - {x}) + {x} && b == (b - {x}) + {x};
      }
    }
  }

  lemma EnterFits(wanted: set<Pid>, pid: Pid, all: set<Pid>)
    requires wanted <= all && pid in all && |all| <= 4096
    ensures Enter(wanted, pid) == wanted + {pid}
  {
    SubsetSize(wanted, all);
    if |wanted| == 4096 {
      assert wanted + {pid} == wanted;
    }
  }

  lemma EverSeenNext(seeds: seq<Seed>, evs: seq<Event>, e: Event)
    ensures EverSeen(seeds, evs) <= EverSeen(seeds, evs + [e])
    ensures e.Exec? ==> e.pid in EverSeen(seeds, evs + [e])
  {
    var evs' := evs + [e];
    assert evs'[|evs|] == e;
    forall p | p in EverSeen(seeds, evs) ensures p in EverSeen(seeds, evs') {
      if !(exists i :: 0 <= i < |seeds| && seeds[i].pid == p) {
        var k :| 0 <= k < |evs| && evs[k].Exec? && evs[k].pid == p;
        assert evs'[k].Exec? && evs'[k].pid == p;
      }
    }
  }

  /** While there is room, the wanted pids are those with a cause. */
  lemma {:induction false} WantedIffCause(cfg: Config, seeds: seq<Seed>, evs: seq<Event>)
    requires |EverSeen(seeds, evs)| <= 4096
    ensures forall p :: p in Wanted(cfg, seeds, evs) <==> HasCause(cfg, seeds, evs, p)
    ensures Wanted(cfg, seeds, evs) <= EverSeen(seeds, evs)
  {
    if evs == [] {
      SeedsFitAll(cfg, seeds);
    } else {
      var init, e := evs[..|evs| - 1], evs[|evs| - 1];
      assert evs == init + [e];
      EverSeenNext(seeds, init, e);
      SubsetSize(EverSeen(seeds, init), EverSeen(seeds, evs));
      WantedIffCause(cfg, seeds, init);
      if e.Exec? {
        EnterFits(Wanted(cfg, seeds, init), e.pid, EverSeen(seeds, evs));
        JoinsIffCause(cfg, seeds, init, e);
      }
      forall p ensures p in Wanted(cfg, seeds, evs) <==> HasCause(cfg, seeds, evs, p) {
        CauseIff(cfg, seeds, init, e, p);
      }
    }
  }

  lemma JoinsIffCause(cfg: Config, seeds: seq<Seed>, evs: seq<Event>, e: Event)
    requires e.Exec? && forall p :: p in Wanted(cfg, seeds, evs) <==> HasCause(cfg, seeds, evs, p)
    ensures Joins(cfg, Wanted(cfg, seeds, evs), e) <==> HasNewCause(cfg, seeds, evs, e)
  {
    assert e.ppid in Wanted(cfg, seeds, evs) <==> HasCause(cfg, seeds, evs, e.ppid);
  }

  lemma SeedIsCause(cfg: Config, seeds: seq<Seed>, p: Pid)
    ensures HasCause(cfg, seeds, [], p) <==> IsSeed(seeds, p)
  {
    if IsSeed(seeds, p) {
      assert Stays(cfg, seeds, [], p, Seeded);
    }
    if HasCause(cfg, seeds, [], p) {
      var why :| Stays(cfg, seeds, [], p, why);
      assert why.Seeded?;
    }
  }

  lemma {:induction false} SeedsFitTable(seeds: seq<Seed>, all: set<Pid>)
    requires |all| <= 4096 && forall i :: 0 <= i < |seeds| ==> seeds[i].pid in all
    ensures forall p :: p in Seeds(seeds) <==> IsSeed(seeds, p)
  {
    if seeds != [] {
      var init, last := seeds[..|seeds| - 1], seeds[|seeds| - 1];
      SeedsFitTable(init, all);
      EnterFits(Seeds(init), last.pid, all);
      forall p ensures p in Seeds(seeds) <==> IsSeed(seeds, p) {
        SeedNextIs(init, last, p);
        assert seeds == init + [last];
      }
    }
  }

  lemma SeedNextIs(seeds: seq<Seed>, last: Seed, p: Pid)
    ensures IsSeed(seeds + [last], p) <==> IsSeed(seeds, p) || last.pid == p
  {
    var all := seeds + [last];
    assert all[|seeds|] == last;
    if IsSeed(seeds, p) {
      var i :| 0 <= i < |seeds| && seeds[i].pid == p;
      assert all[i].pid == p;
    }
  }

  lemma SeedsFitAll(cfg: Config, seeds: seq<Seed>)
    requires |EverSeen(seeds, [])| <= 4096
    ensures forall p :: p in Seeds(seeds) <==> HasCause(cfg, seeds, [], p)
    ensures Seeds(seeds) <= EverSeen(seeds, [])
  {
    SeedsFitTable(seeds, EverSeen(seeds, []));
    forall p ensures p in Seeds(seeds) <==> HasCause(cfg, seeds, [], p) {
      SeedIsCause(cfg, seeds, p);
    }
  }

  /** While no more than 4096 pids were seen, a pid is wanted exactly when it was seeded or exec'd with a cause, and has
      not exited since; in every safe run it is then tracked, and otherwise not. */
  lemma TrackedIffCause(cfg: Config, seeds: seq<Seed>, evs: seq<Event>, pid: Pid)
    requires |EverSeen(seeds, evs)| <= 4096
    ensures pid in Wanted(cfg, seeds, evs) <==> HasCause(cfg, seeds, evs, pid)
    ensures Tracker.SafeRun(TableOps(cfg, seeds, evs)) ==>
      (Tracker.IsTracked(After(cfg, seeds, evs).table, pid) <==> HasCause(cfg, seeds, evs, pid))
  {
    WantedIffCause(cfg, seeds, evs);
    if Tracker.SafeRun(TableOps(cfg, seeds, evs)) {
      TrackedIffWanted(cfg, seeds, evs, pid);
    }
  }
}
