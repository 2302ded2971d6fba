/** What one open and one exit do to the table of file opens and what they print, said without the functions that
    compute it. */
module FileSteps {
  import opened Selections
  import opened Probing
  import opened Words
  import opened FileLimiter
  import opened FileOpens

  /** The entry has absorbed repeats. */
  function CountsMore(): FileEntry -> bool {
    (e: FileEntry) => e.count > 1
  }

  /** The entry is of the pid and has absorbed repeats. */
  function CountsMoreOf(pid: Pid): FileEntry -> bool {
    (e: FileEntry) => e.open.pid == pid && e.count > 1
  }

  /** One line for each entry chosen by `p`, in order, with its open and its count. */
  ghost predicate Reports(entries: seq<FileEntry>, p: FileEntry -> bool, now: U64, kind: Kind, lines: seq<Record>) {
    exists chosen: seq<FileEntry> :: Selects(entries, p, chosen) && LinesOf(chosen, now, kind, lines)
  }

  predicate LinesOf(chosen: seq<FileEntry>, now: U64, kind: Kind, lines: seq<Record>) {
    && |lines| == |chosen|
    && forall k :: 0 <= k < |lines| ==> lines[k] == Record(now, chosen[k].open, chosen[k].count, kind)
  }

  // ----- the lines of aggregates

  lemma AggregatesSnoc(entries: seq<FileEntry>, e: FileEntry, now: U64, kind: Kind)
    ensures Aggregates(entries + [e], now, kind) == Aggregates(entries, now, kind) + Line(e, now, kind)
  {
    AggregatesAppend(entries, [e], now, kind);
    assert Line(e, now, kind) + [] == Line(e, now, kind);
  }

  lemma ReportsNothing(p: FileEntry -> bool, now: U64, kind: Kind)
    ensures Reports([], p, now, kind, [])
  {
    SelectsNothing(p);
    assert LinesOf([], now, kind, []);
  }

  lemma LinesOfSnoc(chosen: seq<FileEntry>, e: FileEntry, now: U64, kind: Kind, lines: seq<Record>)
    requires LinesOf(chosen, now, kind, lines)
    ensures LinesOf(chosen + [e], now, kind, lines + [Record(now, e.open, e.count, kind)])
  {
  }

  lemma ReportsSnoc(entries: seq<FileEntry>, e: FileEntry, p: FileEntry -> bool, now: U64, kind: Kind, lines: seq<Record>)
    requires Reports(entries, p, now, kind, lines)
    ensures Reports(entries + [e], p, now, kind, if p(e) then lines + [Record(now, e.open, e.count, kind)] else lines)
  {
    var chosen: seq<FileEntry> :| Selects(entries, p, chosen) && LinesOf(chosen, now, kind, lines);
    SelectsSnoc(entries, e, p, chosen);
    LinesOfSnoc(chosen, e, now, kind, lines);
  }

  lemma {:induction false} AggregatesReport(entries: seq<FileEntry>, now: U64, kind: Kind)
    ensures Reports(entries, CountsMore(), now, kind, Aggregates(entries, now, kind))
  {
    if entries == [] {
      ReportsNothing(CountsMore(), now, kind);
    } else {
      var init, last := entries[..|entries| - 1], entries[|entries| - 1];
      SplitLast(entries);
      AggregatesReport(init, now, kind);
      AggregatesSnoc(init, last, now, kind);
      ReportsSnoc(init, last, CountsMore(), now, kind, Aggregates(init, now, kind));
      assert Aggregates(init, now, kind) + [] == Aggregates(init, now, kind);
    }
  }

  lemma OfPidSnoc(entries: seq<FileEntry>, e: FileEntry, pid: Pid)
    ensures OfPid(entries + [e], pid) == if e.open.pid == pid then OfPid(entries, pid) + [e] else OfPid(entries, pid)
  {
    OfPidAppend(entries, [e], pid);
    assert OfPid(entries, pid) + [] == OfPid(entries, pid);
  }

  lemma {:induction false} OwnAggregatesReport(entries: seq<FileEntry>, pid: Pid, now: U64)
    ensures Reports(entries, CountsMoreOf(pid), now, ProcessExit, Aggregates(OfPid(entries, pid), now, ProcessExit))
  {
    if entries == [] {
      ReportsNothing(CountsMoreOf(pid), now, ProcessExit);
    } else {
      var init, last := entries[..|entries| - 1], entries[|entries| - 1];
      var before := Aggregates(OfPid(init, pid), now, ProcessExit);
      SplitLast(entries);
      OwnAggregatesReport(init, pid, now);
      OwnAggregatesSnoc(init, last, pid, now);
      ReportsSnoc(init, last, CountsMoreOf(pid), now, ProcessExit, before);
    }
  }

  lemma OwnAggregatesSnoc(entries: seq<FileEntry>, e: FileEntry, pid: Pid, now: U64)
    ensures var before := Aggregates(OfPid(entries, pid), now, ProcessExit);
      Aggregates(OfPid(entries + [e], pid), now, ProcessExit) ==
        if e.open.pid == pid && e.count > 1 then before + [Record(now, e.open, e.count, ProcessExit)] else before
  {
    OfPidSnoc(entries, e, pid);
    if e.open.pid == pid {
      AggregatesSnoc(OfPid(entries, pid), e, now, ProcessExit);
      var before := Aggregates(OfPid(entries, pid), now, ProcessExit);
      assert before + [] == before;
    }
  }

  // ----- an exit

  /** What an exit must do: no entry of the pid stays, all others do, and the pid's repeats are reported in the order of
      the table. */
  ghost predicate ExitsExactly(entries: seq<FileEntry>, pid: Pid, now: U64, entries': seq<FileEntry>, lines: seq<Record>) {
    && (forall e: FileEntry :: multiset(entries')[e] == if e.open.pid == pid then 0 else multiset(entries)[e])
    && Reports(entries, CountsMoreOf(pid), now, ProcessExit, lines)
  }

  lemma SweptCounts(entries: seq<FileEntry>, drop: FileEntry -> bool, e: FileEntry)
    ensures var r := Sweep(entries, drop, 0);
      && multiset(r.kept)[e] == (if drop(e) then 0 else multiset(entries)[e])
      && multiset(r.removed)[e] == (if drop(e) then multiset(entries)[e] else 0)
  {
    var r := Sweep(entries, drop, 0);
    SweepIsExact(entries, drop, 0);
    assert multiset(entries)[e] == multiset(r.kept)[e] + multiset(r.removed)[e];
    assert multiset(r.kept)[e] > 0 ==> e in r.kept;
    assert multiset(r.removed)[e] > 0 ==> e in r.removed;
  }

  lemma ExitPidExits(f: Files, pid: Pid, now: U64)
    ensures var (f', lines) := ExitPid(f, pid, now); ExitsExactly(f.entries, pid, now, f'.entries, lines)
  {
    OwnAggregatesReport(f.entries, pid, now);
    forall e: FileEntry
      ensures multiset(Sweep(f.entries, OwnedBy(pid), 0).kept)[e] == if e.open.pid == pid then 0 else multiset(f.entries)[e]
    {
      SweptCounts(f.entries, OwnedBy(pid), e);
    }
  }

  /** In every run an exit takes exactly the pid's entries out of the table and reports exactly their repeats. */
  lemma ExitIsExact(evs: seq<FileEvent>, pid: Pid, now: U64)
    ensures var s, s' := RunFiles(evs), RunFiles(evs + [Exited(pid, now)]);
      && s.out <= s'.out
      && ExitsExactly(s.files.entries, pid, now, s'.files.entries, s'.out[|s.out|..])
  {
    RunFilesNext(evs, Exited(pid, now));
    ExitPidExits(RunFiles(evs).files, pid, now);
  }

  // ----- an open

  /** `gone` are the expired entries, in whatever order, and `kept` all others. */
  ghost predicate Expels(entries: seq<FileEntry>, now: U64, kept: multiset<FileEntry>, gone: seq<FileEntry>) {
    forall e: FileEntry ::
      && kept[e] == (if Expired(now, e) then 0 else multiset(entries)[e])
      && multiset(gone)[e] == (if Expired(now, e) then multiset(entries)[e] else 0)
  }

  /** The entry with the hash has absorbed one more open. */
  ghost predicate Absorbs(kept: multiset<FileEntry>, entries': seq<FileEntry>, hash: U64, now: U64) {
    exists e: FileEntry :: e in kept && e.hash == hash
      && multiset(entries') + multiset{e} == kept + multiset{e.(count := Bump(e.count), ts := now)}
  }

  /** What an open that is let through must do: the expired entries go, their repeats are reported, and the open is
      absorbed by a live entry with its hash, or else reported and entered if there is room. */
  ghost predicate OpensExactly(entries: seq<FileEntry>, o: Open, hash: U64, now: U64, warning: bool,
                               entries': seq<FileEntry>, lines: seq<Record>)
  {
    exists gone: seq<FileEntry>, kept: multiset<FileEntry>, expired: seq<Record> ::
      && Expels(entries, now, kept, gone) && Reports(gone, CountsMore(), now, WindowExpired, expired)
      && Enters(kept, Live(entries, hash, now), o, hash, now, entries')
      && lines == expired + if Live(entries, hash, now) then [] else [Record(now, o, 1, Plain(warning))]
  }

  ghost predicate Enters(kept: multiset<FileEntry>, live: bool, o: Open, hash: U64, now: U64, entries': seq<FileEntry>) {
    if live then Absorbs(kept, entries', hash, now)
    else multiset(entries') == if |kept| < MAX_FILE_HASHES then kept + multiset{FileEntry(hash, now, 1, o)} else kept
  }

  lemma DedupEnters(kept: seq<FileEntry>, o: Open, hash: U64, now: U64)
    ensures Enters(multiset(kept), HashSlot(kept, hash).Some?, o, hash, now, Dedup(kept, o, hash, now).0)
    ensures Dedup(kept, o, hash, now).1 == if HashSlot(kept, hash).Some? then 0 else 1
  {
    match HashSlot(kept, hash) {
      case None =>
      case Some(i) =>
        var e := kept[i];
        var e' := e.(count := Bump(e.count), ts := now);
        assert e in multiset(kept);
        assert multiset(kept[i := e']) == multiset(kept) - multiset{e} + multiset{e'};
    }
  }

  lemma SweepExpels(entries: seq<FileEntry>, now: U64)
    ensures var r := Sweep(entries, ExpiredAt(now), 0); Expels(entries, now, multiset(r.kept), r.removed)
  {
    forall e: FileEntry
      ensures var r := Sweep(entries, ExpiredAt(now), 0);
        && multiset(r.kept)[e] == (if Expired(now, e) then 0 else multiset(entries)[e])
        && multiset(r.removed)[e] == (if Expired(now, e) then multiset(entries)[e] else 0)
    {
      SweptCounts(entries, ExpiredAt(now), e);
    }
  }

  lemma PassedOpensExactly(f: Files, o: Open, hash: U64, now: U64)
    requires CountOpen(f, o, hash, now).passed
    ensures var c := CountOpen(f, o, hash, now);
      OpensExactly(f.entries, o, hash, now, c.warning, c.files.entries, OpenLines(c, o, now))
  {
    var r := Sweep(f.entries, ExpiredAt(now), 0);
    SweepExpels(f.entries, now);
    AggregatesReport(r.removed, now, WindowExpired);
    FoundIffLive(f.entries, hash, now);
    DedupEnters(r.kept, o, hash, now);
  }

  /** In every run an open over the limit changes no entry and prints nothing; any other does exactly the above, its own
      line carrying the warning when that is due. */
  lemma OpenIsExact(evs: seq<FileEvent>, o: Open, hash: U64, now: U64)
    ensures var s, s' := RunFiles(evs), RunFiles(evs + [Opened(o, hash, now)]);
      var h, h' := HistoriesOf(evs), HistoriesOf(evs + [Opened(o, hash, now)]);
      && s.out <= s'.out
      && (if OverLimit(h', o.pid) then s'.files.entries == s.files.entries && s'.out == s.out
          else OpensExactly(s.files.entries, o, hash, now, NewSecond(h, o.pid, now / NS_PER_SECOND) && Overfull(h, o.pid),
                            s'.files.entries, s'.out[|s.out|..]))
  {
    var f := RunFiles(evs).files;
    RunFilesNext(evs, Opened(o, hash, now));
    OpensPassIff(evs, o, hash, now);
    if CountOpen(f, o, hash, now).passed {
      PassedOpensExactly(f, o, hash, now);
    }
  }
}
