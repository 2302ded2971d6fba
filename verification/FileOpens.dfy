/** File-open accounting of the process loader: the 60-second deduplication table with its swap-remove sweeps,
    and the flush at process exit. */
module FileOpens {
  import opened Wrappers
  import opened Probing
  import opened Words
  import opened FileLimiter

  const FILE_DEDUP_WINDOW_NS: U64 := 60_000_000_000
  const MAX_FILE_HASHES: nat := 1024

  datatype Open = Open(pid: Pid, comm: string, path: string, flags: int)

  datatype FileEntry = FileEntry(hash: U64, ts: U64, count: U32, open: Open)

  datatype Kind = Plain(warning: bool) | WindowExpired | ProcessExit

  /** One printed FILE_OPEN line. */
  datatype Record = Record(ts: U64, open: Open, count: U32, kind: Kind)

  const ZERO_ENTRY := FileEntry(0, 0, 0, Open(0, "", "", 0))

  // ----- the sweeps

  datatype Swept = Swept(kept: seq<FileEntry>, removed: seq<FileEntry>)

  /** The swap-remove loop from index `i` on: what stays, and what goes in the order it goes. */
  function Sweep(entries: seq<FileEntry>, drop: FileEntry -> bool, i: nat): Swept
    requires i <= |entries|
    decreases |entries| - i
  {
    if i == |entries| then Swept(entries, [])
    else if drop(entries[i]) then
      var r := Sweep(SwapRemove(entries, i), drop, i);
      Swept(r.kept, [entries[i]] + r.removed)
    else Sweep(entries, drop, i + 1)
  }

  /** A sweep removes exactly the entries it means to: nothing else leaves, nothing appears, nothing is skipped. */
  lemma {:induction false} SweepIsExact(entries: seq<FileEntry>, drop: FileEntry -> bool, i: nat)
    requires i <= |entries|
    requires forall j :: 0 <= j < i ==> !drop(entries[j])
    ensures var r := Sweep(entries, drop, i);
      && multiset(r.kept) + multiset(r.removed) == multiset(entries)
      && (forall e :: e in r.kept ==> !drop(e))
      && (forall e :: e in r.removed ==> drop(e))
    decreases |entries| - i
  {
    if i < |entries| {
      if drop(entries[i]) {
        SwapRemoveTakesOne(entries, i);
        SweepIsExact(SwapRemove(entries, i), drop, i);
      } else {
        SweepIsExact(entries, drop, i + 1);
      }
    }
  }

  predicate Expired(now: U64, e: FileEntry) {
    (now - e.ts) % 0x1_0000_0000_0000_0000 > FILE_DEDUP_WINDOW_NS
  }

  /** An entry expires more than 60 seconds after it was last seen. The subtraction is unsigned: an entry that is newer
      than the open expires too, unless it is newer by almost the whole range. */
  lemma ExpiredMeans(now: U64, e: FileEntry)
    ensures now >= e.ts ==> (Expired(now, e) <==> now - e.ts > 60 * NS_PER_SECOND)
    ensures now < e.ts ==> (Expired(now, e) <==> e.ts - now < 0x1_0000_0000_0000_0000 - 60 * NS_PER_SECOND)
  {
    if now < e.ts {
      assert (now - e.ts) % 0x1_0000_0000_0000_0000 == now - e.ts + 0x1_0000_0000_0000_0000;
    }
  }

  function ExpiredAt(now: U64): FileEntry -> bool {
    (e: FileEntry) => Expired(now, e)
  }

  function OwnedBy(pid: Pid): FileEntry -> bool {
    (e: FileEntry) => e.open.pid == pid
  }

  /** The aggregate line of one entry; a count of 1 (or 0) is silent. */
  function Line(e: FileEntry, now: U64, kind: Kind): seq<Record> {
    if e.count > 1 then [Record(now, e.open, e.count, kind)] else []
  }

  function Aggregates(entries: seq<FileEntry>, now: U64, kind: Kind): seq<Record> {
    if entries == [] then [] else Line(entries[0], now, kind) + Aggregates(entries[1..], now, kind)
  }

  lemma {:induction false} AggregatesAppend(a: seq<FileEntry>, b: seq<FileEntry>, now: U64, kind: Kind)
    ensures Aggregates(a + b, now, kind) == Aggregates(a, now, kind) + Aggregates(b, now, kind)
  {
    if a == [] {
      assert a + b == b;
    } else {
      assert (a + b)[1..] == a[1..] + b;
      AggregatesAppend(a[1..], b, now, kind);
      var line, x, y := Line(a[0], now, kind), Aggregates(a[1..], now, kind), Aggregates(b, now, kind);
      assert line + (x + y) == line + x + y;
    }
  }

  /** The entries of one pid, in table order. */
  function OfPid(entries: seq<FileEntry>, pid: Pid): seq<FileEntry> {
    if entries == [] then []
    else (if entries[0].open.pid == pid then [entries[0]] else []) + OfPid(entries[1..], pid)
  }

  lemma {:induction false} OfPidAppend(a: seq<FileEntry>, b: seq<FileEntry>, pid: Pid)
    ensures OfPid(a + b, pid) == OfPid(a, pid) + OfPid(b, pid)
  {
    if a == [] {
      assert a + b == b;
    } else {
      assert (a + b)[1..] == a[1..] + b;
      OfPidAppend(a[1..], b, pid);
      var head, x, y := if a[0].open.pid == pid then [a[0]] else [], OfPid(a[1..], pid), OfPid(b, pid);
      assert head + (x + y) == head + x + y;
    }
  }

  lemma FlushLineStep(entries: seq<FileEntry>, i: nat, pid: Pid, now: U64)
    requires i < |entries|
    ensures Aggregates(OfPid(entries[..i + 1], pid), now, ProcessExit) ==
      Aggregates(OfPid(entries[..i], pid), now, ProcessExit)
      + if entries[i].open.pid == pid then Line(entries[i], now, ProcessExit) else []
  {
    assert entries[..i + 1] == entries[..i] + [entries[i]];
    OfPidAppend(entries[..i], [entries[i]], pid);
    AggregatesAppend(OfPid(entries[..i], pid), OfPid([entries[i]], pid), now, ProcessExit);
  }

  /** The lines the expiry sweep still has to print when it stands at index `i`. */
  ghost function ExpiryLines(entries: seq<FileEntry>, now: U64, i: nat): seq<Record>
    requires i <= |entries|
  {
    Aggregates(Sweep(entries, ExpiredAt(now), i).removed, now, WindowExpired)
  }

  lemma ExpiryStep(entries: seq<FileEntry>, i: nat, now: U64, printed: seq<Record>)
    requires i < |entries|
    ensures if Expired(now, entries[i]) then
        && Sweep(entries, ExpiredAt(now), i).kept == Sweep(SwapRemove(entries, i), ExpiredAt(now), i).kept
        && printed + ExpiryLines(entries, now, i)
           == printed + Line(entries[i], now, WindowExpired) + ExpiryLines(SwapRemove(entries, i), now, i)
      else
        && Sweep(entries, ExpiredAt(now), i).kept == Sweep(entries, ExpiredAt(now), i + 1).kept
        && ExpiryLines(entries, now, i) == ExpiryLines(entries, now, i + 1)
  {
    if Expired(now, entries[i]) {
      var rest := Sweep(SwapRemove(entries, i), ExpiredAt(now), i);
      assert ([entries[i]] + rest.removed)[1..] == rest.removed;
    }
  }

  // ----- one open, one flush

  function HashSlot(entries: seq<FileEntry>, hash: U64): (r: Option<nat>)
    ensures r.Some? ==> r.value < |entries| && entries[r.value].hash == hash
    ensures r.Some? ==> forall i :: 0 <= i < r.value ==> entries[i].hash != hash
    ensures r.None? ==> forall i :: 0 <= i < |entries| ==> entries[i].hash != hash
  {
    if entries == [] then None
    else if entries[0].hash == hash then Some(0)
    else match HashSlot(entries[1..], hash)
      case None => None
      case Some(i) => Some(i + 1)
  }

  /** The two tables of the loader. */
  datatype Files = Files(entries: seq<FileEntry>, limits: seq<Limit>)

  /** What `get_file_open_count` answers: the count to print (0 to stay silent), whether the line carries the
      rate-limit warning, the aggregate lines it printed on the way, and whether the limiter let the open pass. */
  datatype Counted = Counted(files: Files, count: U32, warning: bool, printed: seq<Record>, passed: bool)

  function CountOpen(f: Files, o: Open, hash: U64, now: U64): Counted {
    var r := RateLimit(f.limits, o.pid, now / NS_PER_SECOND);
    if r.drop then Counted(Files(f.entries, r.limits), 0, false, [], false)
    else
      var swept := Sweep(f.entries, ExpiredAt(now), 0);
      var (entries, count) := Dedup(swept.kept, o, hash, now);
      Counted(Files(entries, r.limits), count, r.warning, Aggregates(swept.removed, now, WindowExpired), true)
  }

  function Dedup(entries: seq<FileEntry>, o: Open, hash: U64, now: U64): (seq<FileEntry>, U32) {
    match HashSlot(entries, hash)
    case Some(i) => (entries[i := entries[i].(count := Bump(entries[i].count), ts := now)], 0)
    case None =>
      if |entries| < MAX_FILE_HASHES then (entries + [FileEntry(hash, now, 1, o)], 1) else (entries, 1)
  }

  /** Every line printed for an open, the open's own line last. */
  function OpenLines(c: Counted, o: Open, now: U64): seq<Record> {
    c.printed + if c.count == 0 then [] else [Record(now, o, c.count, Plain(c.warning))]
  }

  function FlushPid(f: Files, pid: Pid, now: U64): (Files, seq<Record>) {
    (f.(entries := Sweep(f.entries, OwnedBy(pid), 0).kept),
     Aggregates(OfPid(f.entries, pid), now, ProcessExit))
  }

  /** What a reported exit does to the two tables: free the limiter slot if a warning is pending on it, then
      flush. */
  function ExitPid(f: Files, pid: Pid, now: U64): (Files, seq<Record>) {
    FlushPid(f.(limits := ExitLimit(f.limits, pid).0), pid, now)
  }

  // ----- conservation

  function CountsOf(out: seq<Record>): nat {
    if out == [] then 0 else out[0].count + CountsOf(out[1..])
  }

  function AggregateLines(out: seq<Record>): nat {
    if out == [] then 0 else (if out[0].kind.Plain? then 0 else 1) + AggregateLines(out[1..])
  }

  lemma {:induction false} OutAppend(a: seq<Record>, b: seq<Record>)
    ensures CountsOf(a + b) == CountsOf(a) + CountsOf(b)
    ensures AggregateLines(a + b) == AggregateLines(a) + AggregateLines(b)
  {
    if a == [] {
      assert a + b == b;
    } else {
      assert (a + b)[1..] == a[1..] + b;
      OutAppend(a[1..], b);
    }
  }

  /** The repeats an entry has absorbed and not yet reported. */
  function OwedBy(e: FileEntry): nat {
    if e.count == 0 then 0 else e.count - 1
  }

  /** What the entries chosen by `pick` owe together. */
  function Owed(entries: seq<FileEntry>, pick: FileEntry -> bool): nat {
    if entries == [] then 0
    else (if pick(entries[0]) then OwedBy(entries[0]) else 0) + Owed(entries[1..], pick)
  }

  function Everything(): FileEntry -> bool {
    (_: FileEntry) => true
  }

  lemma {:induction false} OwedAppend(a: seq<FileEntry>, b: seq<FileEntry>, pick: FileEntry -> bool)
    ensures Owed(a + b, pick) == Owed(a, pick) + Owed(b, pick)
  {
    if a == [] {
      assert a + b == b;
    } else {
      assert (a + b)[1..] == a[1..] + b;
      OwedAppend(a[1..], b, pick);
    }
  }

  lemma OwedUpdate(entries: seq<FileEntry>, i: nat, e: FileEntry, pick: FileEntry -> bool)
    requires i < |entries|
    ensures Owed(entries[i := e], pick) == Owed(entries, pick) - Owed([entries[i]], pick) + Owed([e], pick)
  {
    var front, back := entries[..i], entries[i + 1..];
    assert entries == front + [entries[i]] + back;
    assert entries[i := e] == front + [e] + back;
    OwedAppend(front + [entries[i]], back, pick);
    OwedAppend(front, [entries[i]], pick);
    OwedAppend(front + [e], back, pick);
    OwedAppend(front, [e], pick);
  }

  lemma OwedSwapRemove(entries: seq<FileEntry>, i: nat, pick: FileEntry -> bool)
    requires i < |entries|
    ensures Owed(SwapRemove(entries, i), pick) == Owed(entries, pick) - Owed([entries[i]], pick)
  {
    var last := |entries| - 1;
    var init := entries[..last];
    SplitLast(entries);
    OwedAppend(init, [entries[last]], pick);
    if i < last {
      OwedUpdate(init, i, entries[last], pick);
      assert SwapRemove(entries, i) == init[i := entries[last]];
    } else {
      assert SwapRemove(entries, i) == init;
    }
  }

  /** A sweep neither loses nor makes up what is owed, whichever entries one looks at. */
  lemma {:induction false} SweepOwes(entries: seq<FileEntry>, drop: FileEntry -> bool, i: nat, pick: FileEntry -> bool)
    requires i <= |entries|
    ensures var r := Sweep(entries, drop, i); Owed(r.kept, pick) + Owed(r.removed, pick) == Owed(entries, pick)
    decreases |entries| - i
  {
    if i < |entries| {
      if drop(entries[i]) {
        var r := Sweep(SwapRemove(entries, i), drop, i);
        OwedSwapRemove(entries, i, pick);
        SweepOwes(SwapRemove(entries, i), drop, i, pick);
        OwedAppend([entries[i]], r.removed, pick);
      } else {
        SweepOwes(entries, drop, i + 1, pick);
      }
    }
  }

  lemma {:induction false} OwedAll(entries: seq<FileEntry>, pick: FileEntry -> bool)
    requires forall e :: e in entries ==> pick(e)
    ensures Owed(entries, pick) == Owed(entries, Everything())
  {
    if entries != [] {
      OwedAll(entries[1..], pick);
    }
  }

  lemma {:induction false} OwedNone(entries: seq<FileEntry>, pick: FileEntry -> bool)
    requires forall e :: e in entries ==> !pick(e)
    ensures Owed(entries, pick) == 0
  {
    if entries != [] {
      OwedNone(entries[1..], pick);
    }
  }

  lemma {:induction false} OwedOfPid(entries: seq<FileEntry>, pid: Pid)
    ensures Owed(OfPid(entries, pid), Everything()) == Owed(entries, OwnedBy(pid))
  {
    if entries != [] {
      OwedOfPid(entries[1..], pid);
      OwedAppend(if entries[0].open.pid == pid then [entries[0]] else [], OfPid(entries[1..], pid), Everything());
    }
  }

  /** The flush prints in table order exactly what the removing sweep then takes away in its own order. */
  lemma FlushOwes(entries: seq<FileEntry>, pid: Pid)
    ensures Owed(Sweep(entries, OwnedBy(pid), 0).kept, Everything()) + Owed(OfPid(entries, pid), Everything())
         == Owed(entries, Everything())
  {
    var drop := OwnedBy(pid);
    var r := Sweep(entries, drop, 0);
    SweepIsExact(entries, drop, 0);
    SweepOwes(entries, drop, 0, drop);
    SweepOwes(entries, drop, 0, Everything());
    OwedNone(r.kept, drop);
    OwedAll(r.removed, drop);
    OwedOfPid(entries, pid);
  }

  /** An aggregate line reports what its entry owes, plus one for itself. */
  lemma {:induction false} AggregatesReportOwed(entries: seq<FileEntry>, now: U64, kind: Kind)
    requires !kind.Plain?
    ensures var out := Aggregates(entries, now, kind); CountsOf(out) == Owed(entries, Everything()) + AggregateLines(out)
  {
    if entries != [] {
      AggregatesReportOwed(entries[1..], now, kind);
      OutAppend(Line(entries[0], now, kind), Aggregates(entries[1..], now, kind));
    }
  }

  // ----- whole runs

  datatype FileEvent =
    | Opened(open: Open, hash: U64, now: U64)
    | Exited(pid: Pid, now: U64)

  /** A run's state, everything printed so far, and how many opens passed the limiter. */
  datatype RunState = RunState(files: Files, out: seq<Record>, passed: nat)

  function StepRun(s: RunState, ev: FileEvent): RunState {
    match ev
    case Opened(o, hash, now) =>
      var c := CountOpen(s.files, o, hash, now);
      RunState(c.files, s.out + OpenLines(c, o, now), s.passed + if c.passed then 1 else 0)
    case Exited(pid, now) =>
      var (files, lines) := ExitPid(s.files, pid, now);
      RunState(files, s.out + lines, s.passed)
  }

  function RunFiles(evs: seq<FileEvent>): RunState {
    if evs == [] then RunState(Files([], []), [], 0)
    else StepRun(RunFiles(evs[..|evs| - 1]), evs[|evs| - 1])
  }

  lemma RunFilesNext(evs: seq<FileEvent>, ev: FileEvent)
    ensures RunFiles(evs + [ev]) == StepRun(RunFiles(evs), ev)
  {
    assert (evs + [ev])[..|evs|] == evs;
  }

  /** The counter that an open would bump, if it finds its hash in the table after the sweep. */
  function BumpedCount(f: Files, ev: FileEvent): Option<U32> {
    match ev
    case Exited(_, _) => None
    case Opened(o, hash, now) =>
      if RateLimit(f.limits, o.pid, now / NS_PER_SECOND).drop then None
      else
        var kept := Sweep(f.entries, ExpiredAt(now), 0).kept;
        var slot := HashSlot(kept, hash);
        if slot.Some? then Some(kept[slot.value].count) else None
  }

  /** No duplicate of the run arrives at a counter that stands at its 32-bit maximum. */
  predicate NoCounterWraps(evs: seq<FileEvent>) {
    evs == [] ||
    (var init := evs[..|evs| - 1];
     NoCounterWraps(init) && BumpedCount(RunFiles(init).files, evs[|evs| - 1]) != Some(U32_MAX))
  }

  /** The ledger: printed counts, less one per aggregate line, plus what live entries owe. */
  function Accounted(s: RunState): int {
    CountsOf(s.out) - AggregateLines(s.out) + Owed(s.files.entries, Everything())
  }

  /** How many opens one step drops from the ledger: none, except when a counter wraps or has wrapped to zero. */
  function Loss(f: Files, ev: FileEvent): nat {
    match BumpedCount(f, ev)
    case None => 0
    case Some(c) => if c == U32_MAX then U32_MAX else if c == 0 then 1 else 0
  }

  lemma DedupOwes(entries: seq<FileEntry>, o: Open, hash: U64, now: U64)
    ensures var (entries', count) := Dedup(entries, o, hash, now);
      match HashSlot(entries, hash)
      case None => count == 1 && Owed(entries', Everything()) == Owed(entries, Everything())
      case Some(i) =>
        && count == 0
        && Owed(entries', Everything()) == Owed(entries, Everything()) + 1
             - (if entries[i].count == U32_MAX then U32_MAX else if entries[i].count == 0 then 1 else 0)
  {
    match HashSlot(entries, hash) {
      case None => OwedAppend(entries, [FileEntry(hash, now, 1, o)], Everything());
      case Some(i) => OwedUpdate(entries, i, entries[i].(count := Bump(entries[i].count), ts := now), Everything());
    }
  }

  lemma OpenAccounts(s: RunState, o: Open, hash: U64, now: U64)
    ensures var ev := Opened(o, hash, now); var s' := StepRun(s, ev);
      Accounted(s') + Loss(s.files, ev) == Accounted(s) + s'.passed - s.passed
  {
    var c := CountOpen(s.files, o, hash, now);
    OutAppend(s.out, OpenLines(c, o, now));
    if c.passed {
      var swept := Sweep(s.files.entries, ExpiredAt(now), 0);
      SweepOwes(s.files.entries, ExpiredAt(now), 0, Everything());
      AggregatesReportOwed(swept.removed, now, WindowExpired);
      DedupOwes(swept.kept, o, hash, now);
      OutAppend(c.printed, if c.count == 0 then [] else [Record(now, o, c.count, Plain(c.warning))]);
    }
  }

  lemma ExitAccounts(s: RunState, pid: Pid, now: U64)
    ensures Accounted(StepRun(s, Exited(pid, now))) == Accounted(s)
  {
    FlushOwes(s.files.entries, pid);
    AggregatesReportOwed(OfPid(s.files.entries, pid), now, ProcessExit);
    OutAppend(s.out, Aggregates(OfPid(s.files.entries, pid), now, ProcessExit));
  }

  /** Everything lost by a run. */
  function Lost(evs: seq<FileEvent>): nat {
    if evs == [] then 0
    else Lost(evs[..|evs| - 1]) + Loss(RunFiles(evs[..|evs| - 1]).files, evs[|evs| - 1])
  }

  lemma {:induction false} Ledger(evs: seq<FileEvent>)
    ensures var s := RunFiles(evs); Accounted(s) + Lost(evs) == s.passed
  {
    if evs != [] {
      var init, last := evs[..|evs| - 1], evs[|evs| - 1];
      Ledger(init);
      match last {
        case Opened(o, hash, now) => OpenAccounts(RunFiles(init), o, hash, now);
        case Exited(pid, now) => ExitAccounts(RunFiles(init), pid, now);
      }
    }
  }

  ghost predicate AllCounted(entries: seq<FileEntry>) {
    forall e :: e in entries ==> e.count > 0
  }

  lemma StepKeepsCounted(s: RunState, ev: FileEvent)
    requires AllCounted(s.files.entries) && BumpedCount(s.files, ev) != Some(U32_MAX)
    ensures AllCounted(StepRun(s, ev).files.entries) && Loss(s.files, ev) == 0
  {
    var entries := s.files.entries;
    match ev {
      case Exited(pid, _) => SweptSubset(entries, OwnedBy(pid));
      case Opened(o, hash, now) => SweptSubset(entries, ExpiredAt(now));
    }
  }

  lemma SweptSubset(entries: seq<FileEntry>, drop: FileEntry -> bool)
    ensures forall e :: e in Sweep(entries, drop, 0).kept ==> e in entries
  {
    SweepIsExact(entries, drop, 0);
    var r := Sweep(entries, drop, 0);
    forall e | e in r.kept ensures e in entries {
      assert e in multiset(r.kept);
      assert e in multiset(entries);
    }
  }

  lemma {:induction false} LostIffWraps(evs: seq<FileEvent>)
    ensures Lost(evs) == 0 <==> NoCounterWraps(evs)
    ensures NoCounterWraps(evs) ==> AllCounted(RunFiles(evs).files.entries)
  {
    if evs != [] {
      var init, last := evs[..|evs| - 1], evs[|evs| - 1];
      LostIffWraps(init);
      if NoCounterWraps(evs) {
        StepKeepsCounted(RunFiles(init), last);
      }
    }
  }

  /** Conservation, for any timestamps: what was printed, less one per aggregate line, plus what the live entries
      still owe, is the number of opens that passed the limiter -- exactly when no 32-bit counter wraps. */
  lemma OpensConservedIffNoWrap(evs: seq<FileEvent>)
    ensures var s := RunFiles(evs);
      CountsOf(s.out) + Owed(s.files.entries, Everything()) == s.passed + AggregateLines(s.out) <==> NoCounterWraps(evs)
  {
    Ledger(evs);
    LostIffWraps(evs);
  }

  // ----- the limiter over whole runs

  ghost function NextHistories(h: Histories, ev: FileEvent): Histories {
    match ev
    case Opened(o, _, now) => AskHistory(h, o.pid, now / NS_PER_SECOND)
    case Exited(pid, _) => ExitHistory(h, pid)
  }

  /** For each pid that owns a limiter slot, the seconds of its opens since it got the slot. */
  ghost function HistoriesOf(evs: seq<FileEvent>): Histories {
    if evs == [] then map[] else NextHistories(HistoriesOf(evs[..|evs| - 1]), evs[|evs| - 1])
  }

  /** The limiter's table is those histories after every run. */
  lemma {:induction false} LimiterIsHistories(evs: seq<FileEvent>)
    ensures LimitsRepresent(RunFiles(evs).files.limits, HistoriesOf(evs))
  {
    if evs != [] {
      var init := evs[..|evs| - 1];
      LimiterIsHistories(init);
      match evs[|evs| - 1] {
        case Opened(o, _, now) =>
          LimiterCountsRuns(RunFiles(init).files.limits, HistoriesOf(init), o.pid, now / NS_PER_SECOND);
        case Exited(pid, _) =>
          ExitFreesOverfull(RunFiles(init).files.limits, HistoriesOf(init), pid);
      }
    }
  }

  /** In every run, an open is held back exactly when its pid has a slot and the run of opens in its second, this one
      included and counted modulo 2^32, exceeds 30; the warning is due with it exactly when it is the first after a
      second with more than 30. */
  lemma OpensPassIff(evs: seq<FileEvent>, o: Open, hash: U64, now: U64)
    ensures var c, second := CountOpen(RunFiles(evs).files, o, hash, now), now / NS_PER_SECOND;
      && (!c.passed <==> OverLimit(HistoriesOf(evs + [Opened(o, hash, now)]), o.pid))
      && (c.warning <==> NewSecond(HistoriesOf(evs), o.pid, second) && Overfull(HistoriesOf(evs), o.pid))
  {
    var limits, second := RunFiles(evs).files.limits, now / NS_PER_SECOND;
    LimiterIsHistories(evs);
    LimiterCountsRuns(limits, HistoriesOf(evs), o.pid, second);
    HistoriesNext(evs, Opened(o, hash, now));
    CountedAsLimited(RunFiles(evs).files, o, hash, now);
  }

  lemma CountedAsLimited(f: Files, o: Open, hash: U64, now: U64)
    ensures var c, r := CountOpen(f, o, hash, now), RateLimit(f.limits, o.pid, now / NS_PER_SECOND);
      c.passed == !r.drop && c.warning == r.warning
  {
  }

  /** The table holds an unexpired entry with this hash. */
  ghost predicate Live(entries: seq<FileEntry>, hash: U64, now: U64) {
    exists e :: e in entries && e.hash == hash && !Expired(now, e)
  }

  lemma FoundIffLive(entries: seq<FileEntry>, hash: U64, now: U64)
    ensures HashSlot(Sweep(entries, ExpiredAt(now), 0).kept, hash).Some? <==> Live(entries, hash, now)
  {
    var drop := ExpiredAt(now);
    var r := Sweep(entries, drop, 0);
    SweepIsExact(entries, drop, 0);
    SweptSubset(entries, drop);
    match HashSlot(r.kept, hash) {
      case Some(i) =>
        assert r.kept[i] in entries && !drop(r.kept[i]);
      case None =>
        forall e | e in entries && e.hash == hash ensures drop(e) {
          assert e in multiset(r.kept) + multiset(r.removed);
        }
    }
  }

  ghost predicate PrintsWarning(out: seq<Record>) {
    exists r :: r in out && r.kind == Plain(true)
  }

  lemma {:induction false} AggregatesAreNotPlain(entries: seq<FileEntry>, now: U64, kind: Kind)
    ensures forall r :: r in Aggregates(entries, now, kind) ==> r.kind == kind
  {
    if entries != [] {
      AggregatesAreNotPlain(entries[1..], now, kind);
    }
  }

  lemma OpenPrintsWarning(f: Files, o: Open, hash: U64, now: U64)
    ensures var c := CountOpen(f, o, hash, now);
      PrintsWarning(OpenLines(c, o, now)) <==> c.warning && !Live(f.entries, hash, now)
  {
    var c := CountOpen(f, o, hash, now);
    var swept := Sweep(f.entries, ExpiredAt(now), 0);
    FoundIffLive(f.entries, hash, now);
    AggregatesAreNotPlain(swept.removed, now, WindowExpired);
    if c.count != 0 {
      var own := Record(now, o, c.count, Plain(c.warning));
      assert OpenLines(c, o, now) == c.printed + [own];
      assert own in OpenLines(c, o, now);
    }
  }

  /** A line with the warning is printed exactly when the warning is due and the open is no duplicate; printed or
      not, nothing is pending for the pid afterwards, so a duplicate loses the warning. */
  lemma WarningPrintedIff(evs: seq<FileEvent>, o: Open, hash: U64, now: U64)
    ensures var f := RunFiles(evs).files;
      var c := CountOpen(f, o, hash, now);
      var due := NewSecond(HistoriesOf(evs), o.pid, now / NS_PER_SECOND) && Overfull(HistoriesOf(evs), o.pid);
      && (PrintsWarning(OpenLines(c, o, now)) <==> due && !Live(f.entries, hash, now))
      && (due ==> WarnSlot(c.files.limits, o.pid).None?)
  {
    var f := RunFiles(evs).files;
    OpensPassIff(evs, o, hash, now);
    OpenPrintsWarning(f, o, hash, now);
    LimiterIsHistories(evs);
    WarningClearsPending(f, HistoriesOf(evs), o, hash, now);
  }

  lemma WarningClearsPending(f: Files, h: Histories, o: Open, hash: U64, now: U64)
    requires LimitsRepresent(f.limits, h)
    ensures var c := CountOpen(f, o, hash, now); c.warning ==> WarnSlot(c.files.limits, o.pid).None?
  {
    var c := CountOpen(f, o, hash, now);
    CountedAsLimited(f, o, hash, now);
    if c.warning {
      var i := LimitSlot(f.limits, o.pid).value;
      assert c.files.limits == f.limits[i := Charge(f.limits[i], now / NS_PER_SECOND).0];
      assert forall j :: 0 <= j < |f.limits| && j != i ==> f.limits[j].pid != o.pid;
    }
  }

  /** `n` opens of one file by one process, all in second 0. */
  function Burst(n: nat): seq<FileEvent> {
    if n == 0 then [] else Burst(n - 1) + [BurstOpen()]
  }

  function BurstOpen(): FileEvent {
    Opened(Open(1, "", "", 0), 0, 0)
  }

  /** The 31st open of the burst is held back. */
  function BurstFiles(n: nat): Files
    requires 0 < n <= 31
  {
    Files([FileEntry(0, 0, if n == 31 then 30 else n, Open(1, "", "", 0))], [Limit(1, 0, n, n == 31)])
  }

  lemma BurstFirst(s: RunState)
    requires s.files == Files([], [])
    ensures StepRun(s, BurstOpen()).files == BurstFiles(1)
  {
    assert HashSlot([], 0) == None;
  }

  lemma BurstStep(s: RunState, n: nat)
    requires 0 < n < 31 && s.files == BurstFiles(n)
    ensures StepRun(s, BurstOpen()).files == BurstFiles(n + 1)
  {
    assert Sweep(s.files.entries, ExpiredAt(0), 0).kept == s.files.entries;
    assert HashSlot(s.files.entries, 0) == Some(0);
  }

  lemma {:induction false} BurstRun(n: nat)
    requires 0 < n <= 31
    ensures RunFiles(Burst(n)).files == BurstFiles(n)
  {
    RunFilesNext(Burst(n - 1), BurstOpen());
    if n == 1 {
      BurstFirst(RunFiles(Burst(0)));
    } else {
      BurstRun(n - 1);
      BurstStep(RunFiles(Burst(n - 1)), n - 1);
    }
  }

  /** After 31 opens of a file in one second, opening it again in the next second loses the warning: it is due, no
      line is printed, and nothing stays pending. */
  lemma WarningCanBeLost(n: nat)
    requires n == 31
    ensures var c := CountOpen(RunFiles(Burst(n)).files, BurstOpen().open, 0, NS_PER_SECOND);
      && c.passed && c.warning
      && OpenLines(c, BurstOpen().open, NS_PER_SECOND) == []
      && WarnSlot(c.files.limits, 1).None?
  {
    BurstRun(n);
    LostAfterBurst(RunFiles(Burst(n)).files);
  }

  lemma LostAfterBurst(f: Files)
    requires f == BurstFiles(31)
    ensures var c := CountOpen(f, BurstOpen().open, 0, NS_PER_SECOND);
      && c.passed && c.warning
      && OpenLines(c, BurstOpen().open, NS_PER_SECOND) == []
      && WarnSlot(c.files.limits, 1).None?
  {
    assert Sweep(f.entries, ExpiredAt(NS_PER_SECOND), 0) == Swept(f.entries, []);
    assert HashSlot(f.entries, 0) == Some(0);
  }

  lemma HistoriesNext(evs: seq<FileEvent>, ev: FileEvent)
    ensures HistoriesOf(evs + [ev]) == NextHistories(HistoriesOf(evs), ev)
  {
    assert (evs + [ev])[..|evs|] == evs;
  }

  /** In every run, an exit warns exactly when the pid's last second had more than 30 opens, and only then gives its
      slot back. */
  lemma ExitWarnsIff(evs: seq<FileEvent>, pid: Pid, now: U64)
    ensures var warning, h := ExitLimit(RunFiles(evs).files.limits, pid).1, HistoriesOf(evs);
      && (warning <==> Overfull(h, pid))
      && HistoriesOf(evs + [Exited(pid, now)]) == if warning then h - {pid} else h
  {
    HistoriesNext(evs, Exited(pid, now));
    LimiterIsHistories(evs);
    ExitFreesOverfull(RunFiles(evs).files.limits, HistoriesOf(evs), pid);
  }

  // ----- a counter can wrap

  /** `n` opens of one file, one second apart. */
  function Repeated(n: nat): seq<FileEvent>
    requires n <= 0x1_0000_0000
  {
    if n == 0 then [] else Repeated(n - 1) + [RepeatedOpen(n - 1)]
  }

  function RepeatedOpen(k: nat): FileEvent
    requires k < 0x1_0000_0000
  {
    Opened(Open(1, "", "", 0), 0, k * NS_PER_SECOND)
  }

  function RepeatedFiles(n: nat): Files
    requires 0 < n < 0x1_0000_0000
  {
    Files([FileEntry(0, (n - 1) * NS_PER_SECOND, n, Open(1, "", "", 0))], [Limit(1, n - 1, 1, false)])
  }

  lemma RepeatedStep(s: RunState, n: nat)
    requires 0 < n < 0x1_0000_0000 && s.files == RepeatedFiles(n)
    ensures BumpedCount(s.files, RepeatedOpen(n)) == Some(n)
    ensures n + 1 < 0x1_0000_0000 ==> StepRun(s, RepeatedOpen(n)).files == RepeatedFiles(n + 1)
  {
    var now: U64 := n * NS_PER_SECOND;
    var entry := s.files.entries[0];
    assert now / NS_PER_SECOND == n;
    assert !Expired(now, entry);
    assert Sweep(s.files.entries, ExpiredAt(now), 0).kept == s.files.entries;
    assert HashSlot(s.files.entries, 0) == Some(0);
  }

  lemma RepeatedFirst(s: RunState)
    requires s.files == Files([], [])
    ensures StepRun(s, RepeatedOpen(0)).files == RepeatedFiles(1)
  {
    assert HashSlot([], 0) == None;
  }

  lemma RepeatedIsNext(n: nat)
    requires n < 0x1_0000_0000
    ensures RunFiles(Repeated(n + 1)) == StepRun(RunFiles(Repeated(n)), RepeatedOpen(n))
  {
    RunFilesNext(Repeated(n), RepeatedOpen(n));
  }

  lemma RepeatedOne()
    ensures RunFiles(Repeated(1)).files == RepeatedFiles(1)
  {
    RepeatedIsNext(0);
    RepeatedFirst(RunFiles(Repeated(0)));
  }

  lemma {:induction false} RepeatedRun(n: nat)
    requires 0 < n < 0x1_0000_0000
    ensures RunFiles(Repeated(n)).files == RepeatedFiles(n)
  {
    if n == 1 {
      RepeatedOne();
    } else {
      RepeatedRun(n - 1);
      RepeatedIsNext(n - 1);
      RepeatedStep(RunFiles(Repeated(n - 1)), n - 1);
    }
  }

  lemma {:induction false} RepeatedLength(n: nat)
    requires n <= 0x1_0000_0000
    ensures |Repeated(n)| == n
  {
    if n > 0 {
      RepeatedLength(n - 1);
    }
  }

  /** 2^32 opens of one file, a second apart, wrap its counter and are not conserved. */
  lemma CounterCanWrap()
    ensures var evs := Repeated(0x1_0000_0000);
      var s := RunFiles(evs);
      && !NoCounterWraps(evs)
      && CountsOf(s.out) + Owed(s.files.entries, Everything()) != s.passed + AggregateLines(s.out)
  {
    WrapsAt(0xFFFF_FFFF);
    OpensConservedIffNoWrap(Repeated(0x1_0000_0000));
  }

  lemma WrapsAt(n: nat)
    requires n == 0xFFFF_FFFF
    ensures !NoCounterWraps(Repeated(n + 1))
  {
    RepeatedLength(n);
    RepeatedLength(n + 1);
    assert Repeated(n + 1)[..n] == Repeated(n) && Repeated(n + 1)[n] == RepeatedOpen(n);
    RepeatedRun(n);
    RepeatedStep(RunFiles(Repeated(n)), n);
  }

  // ----- the tables themselves

  class FileTables {
    const fileHashes: array<FileEntry>
    var hashCount: nat
    const pidLimits: array<Limit>
    var pidLimitCount: nat

    ghost predicate Valid()
      reads this
    {
      && fileHashes.Length == MAX_FILE_HASHES && hashCount <= MAX_FILE_HASHES
      && pidLimits.Length == MAX_PID_LIMITS && pidLimitCount <= MAX_PID_LIMITS
    }

    ghost function State(): Files
      requires Valid()
      reads this, fileHashes, pidLimits
    {
      Files(fileHashes[..hashCount], pidLimits[..pidLimitCount])
    }

    constructor ()
      ensures Valid() && fresh(fileHashes) && fresh(pidLimits)
      ensures State() == Files([], [])
    {
      fileHashes := new FileEntry[MAX_FILE_HASHES](_ => ZERO_ENTRY);
      pidLimits := new Limit[MAX_PID_LIMITS](_ => ZERO_LIMIT);
      hashCount, pidLimitCount := 0, 0;
    }

    method ShouldRateLimitFile(pid: Pid, now: U64) returns (drop: bool, warning: bool)
      requires Valid()
      modifies this`pidLimitCount, pidLimits
      ensures Valid()
      ensures var r := RateLimit(old(State()).limits, pid, now / NS_PER_SECOND);
        drop == r.drop && warning == r.warning && State() == Files(old(State()).entries, r.limits)
    {
      var second := now / NS_PER_SECOND;
      warning := false;
      ghost var limits := pidLimits[..pidLimitCount];
      var slot, found := 0, false;
      while slot < pidLimitCount && !found
        invariant slot <= pidLimitCount
        invariant found ==> slot < pidLimitCount && LimitSlot(limits, pid) == Some(slot)
        invariant found || (forall i :: 0 <= i < slot ==> limits[i].pid != pid)
        decreases pidLimitCount - slot, !found
      {
        if pidLimits[slot].pid == pid {
          found := true;
        } else {
          slot := slot + 1;
        }
      }
      if !found && pidLimitCount < MAX_PID_LIMITS {
        pidLimits[pidLimitCount] := Limit(pid, second, 0, false);
        pidLimitCount := pidLimitCount + 1;
        found := true;
      }
      if !found {
        return false, false;
      }
      var l := pidLimits[slot];
      if l.second != second {
        if l.warn {
          warning := true;
          l := l.(warn := false);
        }
        l := l.(second := second, count := 0);
      }
      l := l.(count := Bump(l.count));
      drop := l.count > MAX_DISTINCT_FILES_PER_SEC;
      if drop {
        l := l.(warn := true);
      }
      pidLimits[slot] := l;
      ghost var r := RateLimit(limits, pid, second);
      assert pidLimits[..pidLimitCount] == r.limits;
    }

    method ClearPendingWarning(pid: Pid) returns (warning: bool)
      requires Valid()
      modifies this`pidLimitCount, pidLimits
      ensures Valid()
      ensures (State().limits, warning) == ExitLimit(old(State()).limits, pid)
      ensures State().entries == old(State()).entries
    {
      ghost var limits := pidLimits[..pidLimitCount];
      var i := 0;
      while i < pidLimitCount
        invariant i <= pidLimitCount == |limits| && pidLimits[..pidLimitCount] == limits
        invariant forall j :: 0 <= j < i ==> !(limits[j].pid == pid && limits[j].warn)
      {
        if pidLimits[i].pid == pid && pidLimits[i].warn {
          pidLimitCount := pidLimitCount - 1;
          pidLimits[i] := pidLimits[pidLimitCount];
          assert pidLimits[..pidLimitCount] == SwapRemove(limits, i);
          return true;
        }
        i := i + 1;
      }
      warning := false;
    }

    method GetFileOpenCount(o: Open, hash: U64, now: U64)
      returns (count: U32, warning: bool, printed: seq<Record>, ghost passed: bool)
      requires Valid()
      modifies this, fileHashes, pidLimits
      ensures Valid()
      ensures Counted(State(), count, warning, printed, passed) == CountOpen(old(State()), o, hash, now)
    {
      printed := [];
      var drop;
      drop, warning := ShouldRateLimitFile(o.pid, now);
      if drop {
        return 0, false, [], false;
      }
      passed := true;
      printed := SweepExpired(now);
      count := DedupOpen(o, hash, now);
    }

    method DedupOpen(o: Open, hash: U64, now: U64) returns (count: U32)
      requires Valid()
      modifies this`hashCount, fileHashes
      ensures Valid()
      ensures State().limits == old(State()).limits
      ensures (State().entries, count) == Dedup(old(State()).entries, o, hash, now)
    {
      ghost var kept := fileHashes[..hashCount];
      var i := 0;
      while i < hashCount
        invariant i <= hashCount == |kept| && fileHashes[..hashCount] == kept
        invariant forall k :: 0 <= k < i ==> kept[k].hash != hash
      {
        if fileHashes[i].hash == hash {
          fileHashes[i] := fileHashes[i].(count := Bump(fileHashes[i].count), ts := now);
          assert fileHashes[..hashCount] == Dedup(kept, o, hash, now).0;
          return 0;
        }
        i := i + 1;
      }
      if hashCount < MAX_FILE_HASHES {
        fileHashes[hashCount] := FileEntry(hash, now, 1, o);
        hashCount := hashCount + 1;
        assert fileHashes[..hashCount] == Dedup(kept, o, hash, now).0;
      }
      count := 1;
    }

    method SweepExpired(now: U64) returns (printed: seq<Record>)
      requires Valid()
      modifies this`hashCount, fileHashes
      ensures Valid()
      ensures var swept := Sweep(old(State()).entries, ExpiredAt(now), 0);
        State() == Files(swept.kept, old(State()).limits) && printed == Aggregates(swept.removed, now, WindowExpired)
    {
      printed := [];
      ghost var entries := fileHashes[..hashCount];
      var i := 0;
      while i < hashCount
        invariant i <= hashCount <= MAX_FILE_HASHES
        invariant Sweep(fileHashes[..hashCount], ExpiredAt(now), i).kept == Sweep(entries, ExpiredAt(now), 0).kept
        invariant ExpiryLines(entries, now, 0) == printed + ExpiryLines(fileHashes[..hashCount], now, i)
        decreases hashCount - i
      {
        ghost var here := fileHashes[..hashCount];
        ExpiryStep(here, i, now, printed);
        if (now - fileHashes[i].ts) % 0x1_0000_0000_0000_0000 > FILE_DEDUP_WINDOW_NS {
          printed := printed + Line(fileHashes[i], now, WindowExpired);
          RemoveEntry(i);
        } else {
          i := i + 1;
        }
      }
    }

    /** Moves the last entry of the table over entry `i`. */
    method RemoveEntry(i: nat)
      requires Valid() && i < hashCount
      modifies this`hashCount, fileHashes
      ensures Valid() && hashCount == old(hashCount) - 1
      ensures State() == Files(SwapRemove(old(State()).entries, i), old(State()).limits)
    {
      fileHashes[i] := fileHashes[hashCount - 1];
      hashCount := hashCount - 1;
    }

    method FlushPidFileOpens(pid: Pid, now: U64) returns (printed: seq<Record>)
      requires Valid()
      modifies this`hashCount, fileHashes
      ensures Valid()
      ensures (State(), printed) == FlushPid(old(State()), pid, now)
    {
      printed := PrintOwned(pid, now);
      SweepOwned(pid);
    }

    method PrintOwned(pid: Pid, now: U64) returns (printed: seq<Record>)
      requires Valid()
      ensures printed == Aggregates(OfPid(State().entries, pid), now, ProcessExit)
    {
      printed := [];
      ghost var entries := fileHashes[..hashCount];
      var i := 0;
      while i < hashCount
        invariant i <= hashCount == |entries|
        invariant printed == Aggregates(OfPid(entries[..i], pid), now, ProcessExit)
      {
        FlushLineStep(entries, i, pid, now);
        if fileHashes[i].open.pid == pid && fileHashes[i].count > 1 {
          printed := printed + [Record(now, fileHashes[i].open, fileHashes[i].count, ProcessExit)];
        }
        i := i + 1;
      }
      assert entries[..i] == entries;
    }

    method SweepOwned(pid: Pid)
      requires Valid()
      modifies this`hashCount, fileHashes
      ensures Valid()
      ensures State() == Files(Sweep(old(State()).entries, OwnedBy(pid), 0).kept, old(State()).limits)
    {
      ghost var entries := fileHashes[..hashCount];
      var i := 0;
      while i < hashCount
        invariant i <= hashCount <= MAX_FILE_HASHES && State().limits == old(State()).limits
        invariant Sweep(fileHashes[..hashCount], OwnedBy(pid), i).kept == Sweep(entries, OwnedBy(pid), 0).kept
        decreases hashCount - i
      {
        if fileHashes[i].open.pid == pid {
          RemoveEntry(i);
        } else {
          i := i + 1;
        }
      }
    }
  }
}
