/** The aggregation protocol with everything interleaved: CPUs inside `update_agg_map`, one userspace flusher
    iterating, printing and deleting, and the overflow counters being read and reset. */
module AggProtocol {
  import opened AggMap

  const MAX_ENTRIES: nat := 16384

  /** A map element lives in a cell of the preallocated pool; a deleted element's cell may be handed to another key
      while some CPU still holds a pointer to it. `printed` is bookkeeping of this model alone: the flusher has
      printed the element and is going to delete it. */
  datatype Slot = Slot(cell: nat, count: nat, printed: bool)

  /** A CPU between its lookup and what it does about it. */
  datatype Pending = Found(cell: nat) | Missing(key: Key)

  datatype Flusher =
    | Rest
    | AggScan
    | AggFound(key: Key)
    | AggPrinted(key: Key)
    | ExitScan(pid: nat, visited: set<Key>, taken: seq<Key>)
    | ExitFound(pid: nat, visited: set<Key>, taken: seq<Key>, key: Key)
    | ExitDeletes(pid: nat, taken: seq<Key>)
    | OvfRead(counts: seq<nat>)
    | OvfReset(next: nat)

  /** `printed` are the summary lines so far; `events` counts calls of `update_agg_map`. The last two fields are the ledger: `missed` counts the updates
      that fell where they cannot be seen any more, `repeated` the counts printed for keys an exit flush had no
      room to delete. */
  datatype State = State(
    live: map<Key, Slot>,
    overflow: seq<nat>,
    cpus: map<nat, Pending>,
    flusher: Flusher,
    printed: seq<Elem>,
    overflowPrinted: nat,
    events: nat,
    missed: nat,
    repeated: nat)

  datatype Step = Cpu(cpuStep: CpuStep) | Agg(aggStep: AggStep) | Exit(exitStep: ExitStep) | Ovf(ovfStep: OvfStep)

  /** `update_agg_map` on one CPU: its lookup, then an atomic add or an insert into a free cell. */
  datatype CpuStep = Begin(cpu: nat, key: Key) | Add(cpu: nat) | Insert(cpu: nat, cell: nat)

  /** `flush_agg_map`: next key, lookup and print, delete. */
  datatype AggStep = AggStart | AggNext(key: Key) | AggLookup | AggDelete | AggEnd

  /** `flush_pid_from_agg_map`: next key of the pid, lookup and print, and the deletes at the end. */
  datatype ExitStep = ExitStart(pid: nat) | ExitNext(key: Key) | ExitLookup | ExitScanned | ExitDelete

  /** `check_overflow`: read the counters CPU by CPU, report, write zeros CPU by CPU. */
  datatype OvfStep = OvfStart | OvfReadCpu | OvfReport | OvfResetCpu

  /** The overflow counters already reported and not yet reset are those from this index on. */
  function OverflowLive(overflow: seq<nat>, f: Flusher): seq<nat> {
    match f
    case OvfReset(next) => if next <= |overflow| then overflow[..next] else overflow
    case _ => overflow
  }

  predicate InUse(s: State, cell: nat) {
    exists k :: k in s.live && s.live[k].cell == cell
  }

  ghost function KeyOf(s: State, cell: nat): (k: Key)
    requires InUse(s, cell)
    ensures k in s.live && s.live[k].cell == cell
  {
    var k :| k in s.live && s.live[k].cell == cell;
    k
  }

  /** `update_agg_map` after a failed insert: one more overflow on this CPU. */
  function Overflowed(s: State, cpu: nat): State {
    if cpu < |s.overflow| then
      var s1 := s.(overflow := s.overflow[cpu := s.overflow[cpu] + 1]);
      if s.flusher.OvfReset? && s.flusher.next <= cpu then s1.(missed := s.missed + 1) else s1
    else s
  }

  ghost function CpuNext(s: State, step: CpuStep): State {
    match step
    case Begin(cpu, key) => CpuBegin(s, cpu, key)
    case Add(cpu) => CpuAdd(s, cpu)
    case Insert(cpu, cell) => CpuInsert(s, cpu, cell)
  }

  function CpuBegin(s: State, cpu: nat, key: Key): State {
    if cpu >= |s.overflow| || cpu in s.cpus then s
    else
      s.(events := s.events + 1,
         cpus := s.cpus[cpu := if key in s.live then Found(s.live[key].cell) else Missing(key)])
  }

  ghost function CpuAdd(s: State, cpu: nat): State {
    if cpu !in s.cpus || !s.cpus[cpu].Found? then s
    else
      var cell := s.cpus[cpu].cell;
      var s1 := s.(cpus := s.cpus - {cpu});
      if !InUse(s, cell) then s1.(missed := s.missed + 1)
      else
        var k := KeyOf(s, cell);
        s1.(live := s.live[k := s.live[k].(count := s.live[k].count + 1)],
            missed := s.missed + if s.live[k].printed then 1 else 0)
  }

  ghost function CpuInsert(s: State, cpu: nat, cell: nat): State {
    if cpu !in s.cpus || !s.cpus[cpu].Missing? || InUse(s, cell) then s
    else
      var key := s.cpus[cpu].key;
      var s1 := s.(cpus := s.cpus - {cpu});
      if key in s.live || |s.live| >= MAX_ENTRIES then Overflowed(s1, cpu)
      else s1.(live := s.live[key := Slot(cell, 1, false)])
  }

  function Mark(live: map<Key, Slot>, key: Key): map<Key, Slot> {
    if key in live then live[key := live[key].(printed := true)] else live
  }

  function CountOf(s: State, key: Key): nat {
    if key in s.live then s.live[key].count else 0
  }

  /** The line printed for a key, if it counts anything. */
  function SummaryOf(s: State, key: Key): seq<Elem> {
    if CountOf(s, key) > 0 then [Elem(key, CountOf(s, key))] else []
  }

  function AggNextState(s: State, step: AggStep): State {
    match step
    case AggStart => if s.flusher.Rest? then s.(flusher := AggScan) else s
    case AggNext(key) => if s.flusher.AggScan? && key in s.live then s.(flusher := AggFound(key)) else s
    case AggLookup =>
      if !s.flusher.AggFound? then s
      else if s.flusher.key in s.live && s.live[s.flusher.key].count > 0 then
        s.(printed := s.printed + SummaryOf(s, s.flusher.key),
           live := Mark(s.live, s.flusher.key),
           flusher := AggPrinted(s.flusher.key))
      else s.(flusher := AggScan)
    case AggDelete =>
      if s.flusher.AggPrinted? then s.(live := s.live - {s.flusher.key}, flusher := AggScan) else s
    case AggEnd => if s.flusher.AggScan? then s.(flusher := Rest) else s
  }

  function ExitNextState(s: State, step: ExitStep): State {
    match step
    case ExitStart(pid) => if s.flusher.Rest? then s.(flusher := ExitScan(pid, {}, [])) else s
    case ExitNext(key) =>
      if s.flusher.ExitScan? && key in s.live && key.pid == s.flusher.pid && key !in s.flusher.visited then
        s.(flusher := ExitFound(s.flusher.pid, s.flusher.visited + {key}, s.flusher.taken, key))
      else s
    case ExitLookup => if s.flusher.ExitFound? then ExitPrint(s) else s
    case ExitScanned => if s.flusher.ExitScan? then s.(flusher := ExitDeletes(s.flusher.pid, s.flusher.taken)) else s
    case ExitDelete =>
      if !s.flusher.ExitDeletes? then s
      else if s.flusher.taken == [] then s.(flusher := Rest)
      else s.(live := s.live - {s.flusher.taken[0]}, flusher := ExitDeletes(s.flusher.pid, s.flusher.taken[1..]))
  }

  function ExitPrint(s: State): State
    requires s.flusher.ExitFound?
  {
    var ExitFound(pid, visited, taken, key) := s.flusher;
    var s1 := s.(printed := s.printed + SummaryOf(s, key));
    if |taken| < MAX_DELETIONS then s1.(live := Mark(s.live, key), flusher := ExitScan(pid, visited, taken + [key]))
    else s1.(flusher := ExitScan(pid, visited, taken), repeated := s.repeated + CountOf(s, key))
  }

  function OvfNextState(s: State, step: OvfStep): State {
    match step
    case OvfStart => if s.flusher.Rest? then s.(flusher := OvfRead([])) else s
    case OvfReadCpu =>
      if s.flusher.OvfRead? && |s.flusher.counts| < |s.overflow| then
        s.(flusher := OvfRead(s.flusher.counts + [s.overflow[|s.flusher.counts|]]))
      else s
    case OvfReport =>
      if s.flusher.OvfRead? && |s.flusher.counts| == |s.overflow| then
        var total := Sum(s.flusher.counts);
        if total == 0 then s.(flusher := Rest)
        else
          s.(overflowPrinted := s.overflowPrinted + total,
             missed := s.missed + Monus(Sum(s.overflow), total),
             flusher := OvfReset(0))
      else s
    case OvfResetCpu =>
      if !s.flusher.OvfReset? then s
      else if s.flusher.next < |s.overflow| then
        s.(overflow := s.overflow[s.flusher.next := 0], flusher := OvfReset(s.flusher.next + 1))
      else s.(flusher := Rest)
  }

  /** One step of the protocol; a step that is not enabled does nothing. */
  ghost function Next(s: State, step: Step): State {
    match step
    case Cpu(c) => CpuNext(s, c)
    case Agg(a) => AggNextState(s, a)
    case Exit(e) => ExitNextState(s, e)
    case Ovf(o) => OvfNextState(s, o)
  }

  /** How far the counters have moved on since they were read. */
  function Monus(now: nat, read: nat): nat {
    if now >= read then now - read else 0
  }

  function Sum(xs: seq<nat>): nat {
    if xs == [] then 0 else xs[0] + Sum(xs[1..])
  }

  function Initial(ncpu: nat): State {
    State(map[], seq(ncpu, _ => 0), map[], Rest, [], 0, 0, 0, 0)
  }

  ghost function Run(ncpu: nat, steps: seq<Step>): State {
    if steps == [] then Initial(ncpu) else Next(Run(ncpu, steps[..|steps| - 1]), steps[|steps| - 1])
  }

  lemma RunNext(ncpu: nat, steps: seq<Step>, step: Step)
    ensures Run(ncpu, steps + [step]) == Next(Run(ncpu, steps), step)
  {
    assert (steps + [step])[..|steps|] == steps;
  }

  // ----- sums over the map

  /** What an element still holds: nothing once it is printed and waiting for its delete. */
  function Held(slot: Slot): nat {
    if slot.printed then 0 else slot.count
  }

  ghost function HeldSum(m: map<Key, Slot>): nat {
    if m == map[] then 0
    else
      var k :| k in m;
      Held(m[k]) + HeldSum(m - {k})
  }

  lemma {:induction false} HeldSumRemove(m: map<Key, Slot>, k: Key)
    requires k in m
    ensures HeldSum(m) == Held(m[k]) + HeldSum(m - {k})
    decreases |m|
  {
    var c :| c in m && HeldSum(m) == Held(m[c]) + HeldSum(m - {c});
    if c != k {
      HeldSumRemove(m - {c}, k);
      HeldSumRemove(m - {k}, c);
      assert m - {c} - {k} == m - {k} - {c};
    }
  }

  lemma HeldSumWrite(m: map<Key, Slot>, k: Key, slot: Slot)
    ensures HeldSum(m[k := slot]) == HeldSum(m) + Held(slot) - if k in m then Held(m[k]) else 0
  {
    HeldSumRemove(m[k := slot], k);
    if k in m {
      HeldSumRemove(m, k);
      assert m[k := slot] - {k} == m - {k};
    } else {
      assert m[k := slot] - {k} == m;
    }
  }

  lemma {:induction false} SumAppend(a: seq<nat>, b: seq<nat>)
    ensures Sum(a + b) == Sum(a) + Sum(b)
  {
    if a == [] {
      assert a + b == b;
    } else {
      assert (a + b)[1..] == a[1..] + b;
      SumAppend(a[1..], b);
    }
  }

  lemma SumUpdate(a: seq<nat>, i: nat, x: nat)
    requires i < |a|
    ensures Sum(a[i := x]) == Sum(a) - a[i] + x
  {
    assert a == a[..i] + ([a[i]] + a[i + 1..]);
    assert a[i := x] == a[..i] + ([x] + a[i + 1..]);
    SumAppend(a[..i], [a[i]] + a[i + 1..]);
    SumAppend(a[..i], [x] + a[i + 1..]);
  }

  lemma {:induction false} SumMonotone(a: seq<nat>, b: seq<nat>)
    requires |a| == |b| && forall i :: 0 <= i < |a| ==> a[i] <= b[i]
    ensures Sum(a) <= Sum(b)
  {
    if a != [] {
      SumMonotone(a[1..], b[1..]);
    }
  }

  // ----- the ledger

  /** Everything that became of the events, less the events themselves: the ledger says this is always 0. */
  ghost function Balance(s: State): int {
    Total(s.printed) - s.repeated + HeldSum(s.live) + s.overflowPrinted + Sum(OverflowLive(s.overflow, s.flusher))
    + |s.cpus| + s.missed - s.events
  }

  /** The keys whose printed elements wait for their delete, in the order of the deletes. */
  function Victims(f: Flusher): seq<Key> {
    match f
    case AggPrinted(key) => [key]
    case ExitScan(_, _, taken) => taken
    case ExitFound(_, _, taken, _) => taken
    case ExitDeletes(_, taken) => taken
    case _ => []
  }

  predicate Distinct(ks: seq<Key>) {
    forall i, j :: 0 <= i < j < |ks| ==> ks[i] != ks[j]
  }

  /** The printed elements are exactly the ones about to be deleted, each once. */
  ghost predicate Marked(live: map<Key, Slot>, f: Flusher) {
    && Distinct(Victims(f))
    && (forall k :: k in Victims(f) ==> k in live)
    && (forall k :: k in live ==> (live[k].printed <==> k in Victims(f)))
  }

  predicate OwnKeys(keys: set<Key>, pid: nat) {
    forall k :: k in keys ==> k.pid == pid
  }

  ghost predicate FlusherOk(live: map<Key, Slot>, overflow: seq<nat>, f: Flusher) {
    match f
    case AggFound(key) => key in live
    case ExitScan(pid, visited, taken) => OwnKeys(visited, pid) && forall k :: k in taken ==> k in visited
    case ExitFound(pid, visited, taken, key) =>
      && key in live && key !in taken && key in visited && OwnKeys(visited, pid)
      && forall k :: k in taken ==> k in visited
    case ExitDeletes(pid, taken) => forall k :: k in taken ==> k.pid == pid
    case OvfRead(counts) => |counts| <= |overflow| && forall i :: 0 <= i < |counts| ==> counts[i] <= overflow[i]
    case OvfReset(next) => next <= |overflow|
    case _ => true
  }

  ghost predicate CpusOk(cpus: map<nat, Pending>, overflow: seq<nat>) {
    forall c :: c in cpus ==> c < |overflow|
  }

  ghost predicate Inv(s: State) {
    match s
    case State(live, overflow, cpus, flusher, _, _, _, _, _) =>
      Balance(s) == 0 && Marked(live, flusher) && FlusherOk(live, overflow, flusher) && CpusOk(cpus, overflow)
  }

  lemma CpuLeaves(m: map<nat, Pending>, cpu: nat)
    requires cpu in m
    ensures |m - {cpu}| == |m| - 1
  {
    assert (m - {cpu}).Keys == m.Keys - {cpu};
    assert |m| == |m.Keys| && |m - {cpu}| == |(m - {cpu}).Keys|;
  }

  lemma BeginKeeps(s: State, cpu: nat, key: Key)
    requires Inv(s)
    ensures Inv(CpuBegin(s, cpu, key))
  {
  }

  lemma OverflowLiveBump(overflow: seq<nat>, f: Flusher, cpu: nat)
    requires cpu < |overflow| && (f.OvfReset? ==> f.next <= |overflow|)
    ensures Sum(OverflowLive(overflow[cpu := overflow[cpu] + 1], f)) ==
      Sum(OverflowLive(overflow, f)) + if f.OvfReset? && f.next <= cpu then 0 else 1
  {
    var moved := overflow[cpu := overflow[cpu] + 1];
    SumUpdate(overflow, cpu, overflow[cpu] + 1);
    if f.OvfReset? {
      if cpu < f.next {
        SumUpdate(overflow[..f.next], cpu, overflow[cpu] + 1);
        assert moved[..f.next] == overflow[..f.next][cpu := overflow[cpu] + 1];
      } else {
        assert moved[..f.next] == overflow[..f.next];
      }
    }
  }

  lemma AddKeeps(s: State, cpu: nat)
    requires Inv(s)
    ensures Inv(CpuAdd(s, cpu))
  {
    if cpu in s.cpus && s.cpus[cpu].Found? {
      CpuLeaves(s.cpus, cpu);
      if InUse(s, s.cpus[cpu].cell) {
        var k := KeyOf(s, s.cpus[cpu].cell);
        HeldSumWrite(s.live, k, s.live[k].(count := s.live[k].count + 1));
      }
    }
  }

  lemma FailedInsertKeeps(s: State, cpu: nat)
    requires Inv(s) && cpu in s.cpus
    ensures Inv(Overflowed(s.(cpus := s.cpus - {cpu}), cpu))
  {
    CpuLeaves(s.cpus, cpu);
    OverflowLiveBump(s.overflow, s.flusher, cpu);
  }

  lemma FreshInsertKeeps(s: State, cpu: nat, key: Key, cell: nat)
    requires Inv(s) && cpu in s.cpus && key !in s.live
    ensures Inv(s.(cpus := s.cpus - {cpu}, live := s.live[key := Slot(cell, 1, false)]))
  {
    CpuLeaves(s.cpus, cpu);
    HeldSumWrite(s.live, key, Slot(cell, 1, false));
    assert Marked(s.live[key := Slot(cell, 1, false)], s.flusher);
  }

  lemma InsertKeeps(s: State, cpu: nat, cell: nat)
    requires Inv(s)
    ensures Inv(CpuInsert(s, cpu, cell))
  {
    if cpu in s.cpus && s.cpus[cpu].Missing? && !InUse(s, cell) {
      var key := s.cpus[cpu].key;
      if key in s.live || |s.live| >= MAX_ENTRIES {
        FailedInsertKeeps(s, cpu);
      } else {
        FreshInsertKeeps(s, cpu, key, cell);
      }
    }
  }

  /** A step of the flusher alone keeps the invariant if it keeps its victims and the live counters. */
  lemma FlusherMoves(s: State, f: Flusher)
    requires Inv(s) && FlusherOk(s.live, s.overflow, f)
    requires Victims(f) == Victims(s.flusher)
    requires OverflowLive(s.overflow, f) == OverflowLive(s.overflow, s.flusher)
    ensures Inv(s.(flusher := f))
  {
  }

  lemma MarkHolds(live: map<Key, Slot>, key: Key)
    requires key in live && !live[key].printed
    ensures HeldSum(Mark(live, key)) == HeldSum(live) - live[key].count
  {
    HeldSumWrite(live, key, live[key].(printed := true));
  }

  lemma SummaryCounts(s: State, key: Key)
    ensures Total(s.printed + SummaryOf(s, key)) == Total(s.printed) + CountOf(s, key)
  {
    TotalAppend(s.printed, SummaryOf(s, key));
  }

  lemma AggLookupKeeps(s: State)
    requires Inv(s) && s.flusher.AggFound?
    ensures Inv(AggNextState(s, AggLookup))
  {
    if s.live[s.flusher.key].count > 0 {
      MarkHolds(s.live, s.flusher.key);
      SummaryCounts(s, s.flusher.key);
    } else {
      FlusherMoves(s, AggScan);
    }
  }

  lemma AggDeleteKeeps(s: State)
    requires Inv(s) && s.flusher.AggPrinted?
    ensures Inv(AggNextState(s, AggDelete))
  {
    HeldSumRemove(s.live, s.flusher.key);
  }

  lemma AggKeeps(s: State, step: AggStep)
    requires Inv(s)
    ensures Inv(AggNextState(s, step))
  {
    match step {
      case AggStart => if s.flusher.Rest? { FlusherMoves(s, AggScan); }
      case AggNext(key) => if s.flusher.AggScan? && key in s.live { FlusherMoves(s, AggFound(key)); }
      case AggLookup => if s.flusher.AggFound? { AggLookupKeeps(s); }
      case AggDelete => if s.flusher.AggPrinted? { AggDeleteKeeps(s); }
      case AggEnd => if s.flusher.AggScan? { FlusherMoves(s, Rest); }
    }
  }

  lemma ExitPrintKeeps(s: State)
    requires Inv(s) && s.flusher.ExitFound?
    ensures Inv(ExitPrint(s))
  {
    var ExitFound(pid, visited, taken, key) := s.flusher;
    SummaryCounts(s, key);
    if |taken| < MAX_DELETIONS {
      MarkHolds(s.live, key);
      MarkTaken(s.live, s.flusher, ExitScan(pid, visited, taken + [key]), key);
    } else {
      FlusherMoves(s, ExitScan(pid, visited, taken));
    }
  }

  lemma MarkTaken(live: map<Key, Slot>, f: Flusher, f': Flusher, key: Key)
    requires Marked(live, f) && key in live && key !in Victims(f) && Victims(f') == Victims(f) + [key]
    ensures Marked(Mark(live, key), f')
  {
    forall k ensures k in Victims(f') <==> k in Victims(f) || k == key {
    }
  }

  lemma ExitDeleteKeeps(s: State)
    requires Inv(s) && s.flusher.ExitDeletes? && s.flusher.taken != []
    ensures Inv(ExitNextState(s, ExitDelete))
  {
    var taken := s.flusher.taken;
    HeldSumRemove(s.live, taken[0]);
    UnmarkFirst(s.live, s.flusher, ExitDeletes(s.flusher.pid, taken[1..]));
  }

  lemma UnmarkFirst(live: map<Key, Slot>, f: Flusher, f': Flusher)
    requires Marked(live, f) && Victims(f) != [] && Victims(f') == Victims(f)[1..]
    ensures Marked(live - {Victims(f)[0]}, f')
  {
    var ks := Victims(f);
    assert ks == [ks[0]] + ks[1..];
  }

  lemma ExitKeeps(s: State, step: ExitStep)
    requires Inv(s)
    ensures Inv(ExitNextState(s, step))
  {
    match step {
      case ExitStart(pid) => if s.flusher.Rest? { FlusherMoves(s, ExitScan(pid, {}, [])); }
      case ExitNext(key) => if ExitNextState(s, step) != s { FlusherMoves(s, ExitNextState(s, step).flusher); }
      case ExitLookup => if s.flusher.ExitFound? { ExitPrintKeeps(s); }
      case ExitScanned => if s.flusher.ExitScan? { FlusherMoves(s, ExitDeletes(s.flusher.pid, s.flusher.taken)); }
      case ExitDelete =>
        if s.flusher.ExitDeletes? {
          if s.flusher.taken == [] { FlusherMoves(s, Rest); } else { ExitDeleteKeeps(s); }
        }
    }
  }

  lemma OvfReportKeeps(s: State)
    requires Inv(s) && s.flusher.OvfRead? && |s.flusher.counts| == |s.overflow|
    ensures Inv(OvfNextState(s, OvfReport))
  {
    SumMonotone(s.flusher.counts, s.overflow);
    if Sum(s.flusher.counts) == 0 {
      FlusherMoves(s, Rest);
    } else {
      assert OverflowLive(s.overflow, OvfReset(0)) == [];
    }
  }

  lemma OvfResetKeeps(s: State)
    requires Inv(s) && s.flusher.OvfReset?
    ensures Inv(OvfNextState(s, OvfResetCpu))
  {
    var next := s.flusher.next;
    if next < |s.overflow| {
      var overflow := s.overflow[next := 0];
      assert overflow[..next + 1] == s.overflow[..next] + [0];
      SumAppend(s.overflow[..next], [0]);
      assert Sum(OverflowLive(overflow, OvfReset(next + 1))) == Sum(OverflowLive(s.overflow, s.flusher));
    } else {
      FlusherMoves(s, Rest);
    }
  }

  lemma OvfKeeps(s: State, step: OvfStep)
    requires Inv(s)
    ensures Inv(OvfNextState(s, step))
  {
    match step {
      case OvfStart => if s.flusher.Rest? { FlusherMoves(s, OvfRead([])); }
      case OvfReadCpu => if OvfNextState(s, step) != s { FlusherMoves(s, OvfNextState(s, step).flusher); }
      case OvfReport => if s.flusher.OvfRead? && |s.flusher.counts| == |s.overflow| { OvfReportKeeps(s); }
      case OvfResetCpu => if s.flusher.OvfReset? { OvfResetKeeps(s); }
    }
  }

  lemma CpuKeeps(s: State, step: CpuStep)
    requires Inv(s)
    ensures Inv(CpuNext(s, step))
  {
    match step {
      case Begin(cpu, key) => BeginKeeps(s, cpu, key);
      case Add(cpu) => AddKeeps(s, cpu);
      case Insert(cpu, cell) => InsertKeeps(s, cpu, cell);
    }
  }

  lemma StepKeeps(s: State, step: Step)
    requires Inv(s)
    ensures Inv(Next(s, step))
  {
    match step {
      case Cpu(c) => CpuKeeps(s, c);
      case Agg(a) => AggKeeps(s, a);
      case Exit(e) => ExitKeeps(s, e);
      case Ovf(o) => OvfKeeps(s, o);
    }
  }

  lemma {:induction false} ZeroSum(n: nat)
    ensures Sum(seq(n, _ => 0)) == 0
  {
    if n > 0 {
      assert seq(n, _ => 0)[1..] == seq(n - 1, _ => 0);
      ZeroSum(n - 1);
    }
  }

  lemma {:induction false} RunKeeps(ncpu: nat, steps: seq<Step>)
    ensures Inv(Run(ncpu, steps))
  {
    if steps == [] {
      ZeroSum(ncpu);
    } else {
      RunKeeps(ncpu, steps[..|steps| - 1]);
      StepKeeps(Run(ncpu, steps[..|steps| - 1]), steps[|steps| - 1]);
    }
  }

  /** Everything that was reported, or is still held to be reported: printed counts, counts in the map that are not
      printed already, and overflow, reported and not yet. */
  ghost function Reported(s: State): nat {
    Total(s.printed) + HeldSum(s.live) + s.overflowPrinted + Sum(OverflowLive(s.overflow, s.flusher))
  }

  /** The exact ledger, after every step of every interleaving: what is reported or held, plus updates under way, plus
      updates missed, is the events seen plus what was printed for keys an exit flush had no room to delete. */
  lemma EveryEventAccounted(ncpu: nat, steps: seq<Step>)
    ensures var s := Run(ncpu, steps); Reported(s) + |s.cpus| + s.missed == s.events + s.repeated
  {
    RunKeeps(ncpu, steps);
  }

  /** Between flushes nothing in the map is printed already and no overflow counter is reported already. */
  lemma ReportedAtRest(ncpu: nat, steps: seq<Step>)
    requires Run(ncpu, steps).flusher.Rest?
    ensures var s := Run(ncpu, steps); Reported(s) == Total(s.printed) + LiveSum(s.live) + s.overflowPrinted + Sum(s.overflow)
  {
    RunKeeps(ncpu, steps);
    NothingMarked(Run(ncpu, steps).live);
  }

  /** All the counts in the map. */
  ghost function LiveSum(m: map<Key, Slot>): nat {
    if m == map[] then 0
    else
      var k :| k in m;
      m[k].count + LiveSum(m - {k})
  }

  lemma {:induction false} NothingMarked(m: map<Key, Slot>)
    requires forall k :: k in m ==> !m[k].printed
    ensures HeldSum(m) == LiveSum(m)
    decreases |m|
  {
    if m != map[] {
      var k :| k in m && LiveSum(m) == m[k].count + LiveSum(m - {k});
      HeldSumRemove(m, k);
      NothingMarked(m - {k});
    }
  }

  // ----- when nothing is missed and nothing counted twice

  /** The step is an exit flush looking up a key that counts with 256 already collected. */
  predicate PastLimit(s: State, step: Step) {
    step == Exit(ExitLookup) && s.flusher.ExitFound?
    && |s.flusher.taken| >= MAX_DELETIONS && CountOf(s, s.flusher.key) > 0
  }

  /** No exit flush of the run looks up a 257th key that counts. */
  ghost predicate AtMost256(ncpu: nat, steps: seq<Step>) {
    steps == [] ||
    (AtMost256(ncpu, steps[..|steps| - 1]) && !PastLimit(Run(ncpu, steps[..|steps| - 1]), steps[|steps| - 1]))
  }

  /** The window of a flush: an update of the key's element between its lookup and its delete, an add through a
      pointer whose element is gone, or an overflow between the read of its counter and the reset. */
  ghost predicate Window(s: State, step: Step) {
    match step
    case Cpu(Add(cpu)) =>
      && cpu in s.cpus && s.cpus[cpu].Found?
      && (!InUse(s, s.cpus[cpu].cell) || s.live[KeyOf(s, s.cpus[cpu].cell)].printed)
    case Cpu(Insert(cpu, cell)) =>
      && cpu in s.cpus && s.cpus[cpu].Missing? && !InUse(s, cell)
      && (s.cpus[cpu].key in s.live || |s.live| >= MAX_ENTRIES)
      && s.flusher.OvfReset? && s.flusher.next <= cpu < |s.overflow|
    case Ovf(OvfReport) =>
      s.flusher.OvfRead? && |s.flusher.counts| == |s.overflow| && 0 < Sum(s.flusher.counts) < Sum(s.overflow)
    case _ => false
  }

  ghost predicate NoWindowUpdate(ncpu: nat, steps: seq<Step>) {
    steps == [] ||
    (NoWindowUpdate(ncpu, steps[..|steps| - 1]) && !Window(Run(ncpu, steps[..|steps| - 1]), steps[|steps| - 1]))
  }

  lemma StepRepeats(s: State, step: Step)
    ensures Next(s, step).repeated >= s.repeated
    ensures Next(s, step).repeated == s.repeated <==> !PastLimit(s, step)
  {
    match step {
      case Cpu(Begin(_, _)) =>
      case Cpu(Add(_)) =>
      case Cpu(Insert(_, _)) =>
      case Agg(_) =>
      case Exit(_) =>
      case Ovf(_) =>
    }
  }

  lemma {:induction false} RepeatedIff(ncpu: nat, steps: seq<Step>)
    ensures Run(ncpu, steps).repeated == 0 <==> AtMost256(ncpu, steps)
  {
    if steps != [] {
      RepeatedIff(ncpu, steps[..|steps| - 1]);
      StepRepeats(Run(ncpu, steps[..|steps| - 1]), steps[|steps| - 1]);
    }
  }

  lemma StepMisses(s: State, step: Step)
    ensures Next(s, step).missed >= s.missed
    ensures Next(s, step).missed == s.missed <==> !Window(s, step)
  {
    match step {
      case Cpu(Begin(_, _)) =>
      case Cpu(Add(_)) =>
      case Cpu(Insert(_, _)) =>
      case Agg(_) =>
      case Exit(_) =>
      case Ovf(_) =>
    }
  }

  lemma {:induction false} MissedIff(ncpu: nat, steps: seq<Step>)
    ensures Run(ncpu, steps).missed == 0 <==> NoWindowUpdate(ncpu, steps)
  {
    if steps != [] {
      MissedIff(ncpu, steps[..|steps| - 1]);
      StepMisses(Run(ncpu, steps[..|steps| - 1]), steps[|steps| - 1]);
    }
  }

  /** While no exit flush meets more than 256 keys, no interleaving ever reports more than was seen. */
  lemma NeverOvercounts(ncpu: nat, steps: seq<Step>)
    requires AtMost256(ncpu, steps)
    ensures Reported(Run(ncpu, steps)) <= Run(ncpu, steps).events
  {
    EveryEventAccounted(ncpu, steps);
    RepeatedIff(ncpu, steps);
  }

  /** And with no update under way, it reports exactly what was seen if and only if no update fell into a window. */
  lemma ExactIffNoWindowUpdate(ncpu: nat, steps: seq<Step>)
    requires AtMost256(ncpu, steps) && Run(ncpu, steps).cpus == map[]
    ensures Reported(Run(ncpu, steps)) == Run(ncpu, steps).events <==> NoWindowUpdate(ncpu, steps)
  {
    EveryEventAccounted(ncpu, steps);
    RepeatedIff(ncpu, steps);
    MissedIff(ncpu, steps);
  }
}
