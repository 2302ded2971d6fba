/** The process loader's tracked-pid table: 4096 slots, linear probing, and a delete that only clears the
    slot's active flag. */
module PidTracker {
  import opened Wrappers
  import opened Probing

  const TABLE_SIZE: nat := 4096

  datatype Entry = Entry(pid: Pid, ppid: Pid, tracked: bool, active: bool)

  const ZERO_ENTRY := Entry(0, 0, false, false)

  function KeysOf(t: seq<Entry>): (k: Table)
    ensures |k| == |t|
    ensures forall s :: 0 <= s < |t| ==> k[s] == if t[s].active then Some(t[s].pid) else None
  {
    seq(|t|, s requires 0 <= s < |t| => if t[s].active then Some(t[s].pid) else None)
  }

  function Find(t: seq<Entry>, pid: Pid): (r: Option<nat>)
    requires |t| > 0
    ensures r.Some? ==> r.value < |t| && t[r.value].active && t[r.value].pid == pid
  {
    var p := Probe(KeysOf(t), pid);
    if p.Hit? then Some(p.slot) else None
  }

  predicate IsTracked(t: seq<Entry>, pid: Pid)
    requires |t| > 0
  {
    var r := Find(t, pid);
    r.Some? && t[r.value].tracked
  }

  function Add(t: seq<Entry>, pid: Pid, ppid: Pid): (r: (seq<Entry>, bool))
    requires |t| > 0
    ensures |r.0| == |t|
  {
    match Probe(KeysOf(t), pid)
    case Hit(_) => (t, true)
    case Gap(s) => (t[s := Entry(pid, ppid, true, true)], true)
    case Exhausted => (t, false)
  }

  function Remove(t: seq<Entry>, pid: Pid): (t': seq<Entry>)
    requires |t| > 0
    ensures |t'| == |t|
  {
    match Probe(KeysOf(t), pid)
    case Hit(s) => t[s := t[s].(active := false)]
    case _ => t
  }

  /** Active entries are tracked entries: the table starts zeroed and only Add activates a slot. */
  ghost predicate ActiveTracked(t: seq<Entry>) {
    forall s :: 0 <= s < |t| && t[s].active ==> t[s].tracked
  }

  // ----- what holds from every table, broken chains included

  /** One free slot was taken, by the pid and its parent. */
  ghost predicate EntersFree(t: seq<Entry>, t': seq<Entry>, pid: Pid, ppid: Pid) {
    exists s :: 0 <= s < |t| && !t[s].active && t' == t[s := Entry(pid, ppid, true, true)]
  }

  /** A successful add makes the pid tracked and untracks nobody. */
  lemma AddTracks(t: seq<Entry>, pid: Pid, ppid: Pid)
    requires |t| > 0 && ActiveTracked(t)
    ensures var (t', ok) := Add(t, pid, ppid);
      && ActiveTracked(t')
      && (ok ==> IsTracked(t', pid))
      && (!ok ==> t' == t && !IsTracked(t, pid) && forall s :: 0 <= s < |t| ==> t[s].active)
      && (ok && !IsTracked(t, pid) ==> EntersFree(t, t', pid, ppid))
      && (forall q :: IsTracked(t, q) ==> IsTracked(t', q))
  {
    AddKeys(t, pid, ppid);
    var k := KeysOf(t);
    if Probe(k, pid).Gap? {
      var g := Probe(k, pid).slot;
      ProbePassed(k, pid);
      ProbeHits(k[g := Some(pid)], pid, g);
      forall q | IsTracked(t, q) ensures IsTracked(Add(t, pid, ppid).0, q) {
        FillKeepsHit(k, pid, g, q);
      }
    }
  }

  lemma FillKeepsHit(k: Table, p: Pid, g: nat, q: Pid)
    requires g < |k| && k[g] == None && Probe(k, q).Hit?
    ensures Probe(k[g := Some(p)], q) == Probe(k, q)
  {
    var s := Probe(k, q).slot;
    ProbeHits(k, q, s);
    ProbeHits(k[g := Some(p)], q, s);
  }

  /** A remove makes the pid untracked and never makes another pid tracked. */
  lemma RemoveUntracks(t: seq<Entry>, pid: Pid)
    requires |t| > 0 && ActiveTracked(t)
    ensures var t' := Remove(t, pid);
      && ActiveTracked(t')
      && !IsTracked(t', pid)
      && (forall q :: IsTracked(t', q) ==> IsTracked(t, q))
  {
    var k := KeysOf(t);
    var r := Probe(k, pid);
    ProbePassed(k, pid);
    var t' := Remove(t, pid);
    var k' := KeysOf(t');
    if r.Hit? {
      forall q | IsTracked(t', q) ensures IsTracked(t, q) && q != pid {
        var s := Find(t', q).value;
        ProbeHits(k', q, s);
        assert Passed(k, q, s) by {
          assert k'[r.slot] == None;
        }
        ProbeHits(k, q, s);
      }
    }
  }

  // ----- the table as a set

  ghost predicate Refines(t: seq<Entry>, live: set<Pid>) {
    && Intact(KeysOf(t))
    && ActiveTracked(t)
    && forall q :: Holds(KeysOf(t), q) <==> q in live
  }

  lemma RefinesDecides(t: seq<Entry>, live: set<Pid>, q: Pid)
    requires |t| > 0 && Refines(t, live)
    ensures IsTracked(t, q) <==> q in live
  {
    IntactDecides(KeysOf(t), q);
  }

  lemma RefinesSize(t: seq<Entry>, live: set<Pid>)
    requires Refines(t, live)
    ensures |live| <= |t|
    ensures |live| == |t| <==> forall s :: 0 <= s < |t| ==> t[s].active
  {
    var k := KeysOf(t);
    HeldSize(k, live);
    if forall s :: 0 <= s < |k| ==> k[s].Some? {
      forall s | 0 <= s < |t| ensures t[s].active { assert k[s].Some?; }
    }
  }

  /** The pid column after an add. */
  lemma AddKeys(t: seq<Entry>, pid: Pid, ppid: Pid)
    requires |t| > 0
    ensures var k := KeysOf(t); var (t', ok) := Add(t, pid, ppid);
      match Probe(k, pid)
      case Hit(_) => t' == t && ok
      case Gap(g) => KeysOf(t') == k[g := Some(pid)] && ok && !t[g].active
      case Exhausted => t' == t && !ok && forall s :: 0 <= s < |t| ==> t[s].active && t[s].pid != pid
  {
    var k := KeysOf(t);
    var (t', ok) := Add(t, pid, ppid);
    ProbePassed(k, pid);
    match Probe(k, pid) {
      case Hit(_) =>
      case Gap(g) => assert KeysOf(t') == k[g := Some(pid)];
      case Exhausted =>
        forall s | 0 <= s < |t| ensures t[s].active && t[s].pid != pid { assert k[s] != None && k[s] != Some(pid); }
    }
  }

  lemma AddRefines(t: seq<Entry>, live: set<Pid>, pid: Pid, ppid: Pid)
    requires |t| > 0 && Refines(t, live)
    ensures var (t', ok) := Add(t, pid, ppid);
      && (ok <==> pid in live || |live| < |t|)
      && Refines(t', if ok then live + {pid} else live)
  {
    var k := KeysOf(t);
    RefinesSize(t, live);
    IntactDecides(k, pid);
    AddKeys(t, pid, ppid);
    match Probe(k, pid) {
      case Hit(_) => assert live + {pid} == live;
      case Exhausted =>
      case Gap(g) => FillGapRefines(t, live, pid, ppid);
    }
  }

  lemma FillGapRefines(t: seq<Entry>, live: set<Pid>, pid: Pid, ppid: Pid)
    requires |t| > 0 && Refines(t, live) && Probe(KeysOf(t), pid).Gap?
    ensures Refines(Add(t, pid, ppid).0, live + {pid})
  {
    var k := KeysOf(t);
    var g := Probe(k, pid).slot;
    AddKeys(t, pid, ppid);
    FillGapIntact(k, pid);
    forall q ensures Holds(k[g := Some(pid)], q) <==> q in live + {pid} {
      WriteHolds(k, pid, g, q);
    }
  }

  /** Slot `v` is on the probe path of no live pid but its own. */
  predicate Unshared(t: seq<Entry>, v: nat)
    requires v < |t|
  {
    forall s :: 0 <= s < |t| && s != v && t[s].active ==> !OnPath(KeysOf(t), v, s)
  }

  /** From an intact table, a remove acts as set deletion exactly when the freed slot is unshared. */
  lemma RemoveIsDeletionIff(t: seq<Entry>, pid: Pid)
    requires |t| > 0 && Intact(KeysOf(t)) && ActiveTracked(t) && IsTracked(t, pid)
    ensures (forall q :: IsTracked(Remove(t, pid), q) <==> IsTracked(t, q) && q != pid)
            <==> Unshared(t, Find(t, pid).value)
  {
    var k := KeysOf(t);
    var v := Find(t, pid).value;
    var t' := Remove(t, pid);
    var k' := KeysOf(t');
    assert k' == k[v := None];
    if Unshared(t, v) {
      UnsharedClears(t, v);
      forall q ensures IsTracked(t', q) <==> IsTracked(t, q) && q != pid {
        RemoveUntracks(t, pid);
        if IsTracked(t, q) && q != pid {
          var s := Find(t, q).value;
          assert k'[s] == Some(q);
          IntactFinds(k', s);
        }
      }
    }
    if !Unshared(t, v) {
      var s :| 0 <= s < |t| && s != v && t[s].active && OnPath(k, v, s);
      var q := t[s].pid;
      IntactFinds(k, s);
      assert k[s] == Some(q) && k[v] == Some(pid) && q != pid;
      LostBehind(t, v, s);
    }
  }

  /** Freeing a slot on another pid's path makes that pid untracked although its entry is still active. */
  lemma LostBehind(t: seq<Entry>, v: nat, s: nat)
    requires Intact(KeysOf(t)) && v < |t| && s < |t| && s != v && t[v].active && t[s].active
    requires OnPath(KeysOf(t), v, s)
    ensures var t' := Remove(t, t[v].pid);
      t'[s] == t[s] && t'[s].active && !IsTracked(t', t[s].pid)
  {
    var k := KeysOf(t);
    var q := t[s].pid;
    IntactFinds(k, v);
    var t' := Remove(t, t[v].pid);
    var k' := KeysOf(t');
    assert k' == k[v := None];
    var home := Home(|k|, q);
    assert At(|k|, home, Dist(|k|, home, v)) == v && At(|k|, home, Dist(|k|, home, s)) == s;
    ProbeHits(k', q, s);
    assert k'[v] == None;
    assert !Passed(k', q, s);
    forall u | 0 <= u < |k'| && u != s ensures k'[u] != Some(q) {
      assert u < s ==> k[u] != k[s];
    }
  }

  lemma RemoveRefines(t: seq<Entry>, live: set<Pid>, pid: Pid)
    requires |t| > 0 && Refines(t, live)
    requires Find(t, pid).Some? ==> Unshared(t, Find(t, pid).value)
    ensures Refines(Remove(t, pid), live - {pid})
  {
    var k := KeysOf(t);
    IntactDecides(k, pid);
    var t' := Remove(t, pid);
    var k' := KeysOf(t');
    if pid in live {
      var v := Find(t, pid).value;
      assert k' == k[v := None];
      UnsharedClears(t, v);
      forall q ensures Holds(k', q) <==> q in live - {pid} {
        ClearHolds(k, v, q);
      }
    } else {
      assert live - {pid} == live;
    }
  }

  lemma UnsharedClears(t: seq<Entry>, v: nat)
    requires Intact(KeysOf(t)) && v < |t| && t[v].active && Unshared(t, v)
    ensures Intact(KeysOf(t)[v := None])
  {
    var k := KeysOf(t);
    forall s | 0 <= s < |k| && s != v && k[s].Some? ensures !OnPath(k, v, s) {
      assert t[s].active;
    }
    ClearIntactIff(k, v);
  }

  // ----- runs

  datatype Op = AddOp(pid: Pid, ppid: Pid) | RemoveOp(pid: Pid)

  function EmptyTable(): (t: seq<Entry>)
    ensures |t| == TABLE_SIZE
  {
    seq(TABLE_SIZE, _ => ZERO_ENTRY)
  }

  function Apply(t: seq<Entry>, op: Op): (t': seq<Entry>)
    requires |t| > 0
    ensures |t'| == |t|
  {
    match op
    case AddOp(pid, ppid) => Add(t, pid, ppid).0
    case RemoveOp(pid) => Remove(t, pid)
  }

  function Run(ops: seq<Op>): (t: seq<Entry>)
    ensures |t| == TABLE_SIZE
  {
    if ops == [] then EmptyTable() else Apply(Run(ops[..|ops| - 1]), ops[|ops| - 1])
  }

  /** The same run on a set of at most 4096 pids. */
  function SetRun(ops: seq<Op>): set<Pid> {
    if ops == [] then {}
    else
      var live := SetRun(ops[..|ops| - 1]);
      match ops[|ops| - 1]
      case AddOp(pid, _) => if |live| < TABLE_SIZE then live + {pid} else live
      case RemoveOp(pid) => live - {pid}
  }

  /** Every remove of the run that finds its pid frees a slot no other live pid has probed over. */
  predicate SafeRun(ops: seq<Op>) {
    ops == [] ||
    (var init, last := ops[..|ops| - 1], ops[|ops| - 1];
     && SafeRun(init)
     && (last.RemoveOp? && Find(Run(init), last.pid).Some? ==>
           Unshared(Run(init), Find(Run(init), last.pid).value)))
  }

  lemma EmptyRefines()
    ensures Refines(EmptyTable(), {})
  {
    var k := KeysOf(EmptyTable());
    assert forall s :: 0 <= s < |k| ==> k[s] == None;
  }

  lemma StepRefines(t: seq<Entry>, live: set<Pid>, op: Op)
    requires |t| > 0 && Refines(t, live)
    requires op.RemoveOp? && Find(t, op.pid).Some? ==> Unshared(t, Find(t, op.pid).value)
    ensures Refines(Apply(t, op), match op
                                  case AddOp(pid, _) => if |live| < |t| then live + {pid} else live
                                  case RemoveOp(pid) => live - {pid})
  {
    match op {
      case AddOp(pid, ppid) =>
        AddRefines(t, live, pid, ppid);
        assert pid in live ==> live + {pid} == live;
      case RemoveOp(pid) =>
        IntactDecides(KeysOf(t), pid);
        RemoveRefines(t, live, pid);
    }
  }

  lemma {:induction false} RunRefines(ops: seq<Op>)
    requires SafeRun(ops)
    ensures Refines(Run(ops), SetRun(ops))
  {
    if ops == [] {
      EmptyRefines();
    } else {
      var init := ops[..|ops| - 1];
      RunRefines(init);
      StepRefines(Run(init), SetRun(init), ops[|ops| - 1]);
    }
  }

  /** A safe run is a run of a set: a pid is tracked exactly when the set has it. */
  lemma SafeRunIsSet(ops: seq<Op>, q: Pid)
    requires SafeRun(ops)
    ensures IsTracked(Run(ops), q) <==> q in SetRun(ops)
  {
    RunRefines(ops);
    RefinesDecides(Run(ops), SetRun(ops), q);
  }

  ghost predicate LikeSet(ops: seq<Op>) {
    forall q :: IsTracked(Run(ops), q) <==> q in SetRun(ops)
  }

  /** The table answered like the set after every prefix of the run. */
  ghost predicate LikeSetThroughout(ops: seq<Op>) {
    LikeSet(ops) && (ops != [] ==> LikeSetThroughout(ops[..|ops| - 1]))
  }

  lemma SafeRunLikeSet(ops: seq<Op>)
    requires SafeRun(ops)
    ensures LikeSet(ops)
  {
    forall q ensures IsTracked(Run(ops), q) <==> q in SetRun(ops) {
      SafeRunIsSet(ops, q);
    }
  }

  /** The table is a set throughout a run if and only if the run is safe. */
  lemma {:induction false} SetThroughoutIffSafe(ops: seq<Op>)
    ensures LikeSetThroughout(ops) <==> SafeRun(ops)
  {
    if SafeRun(ops) {
      SafeRunLikeSet(ops);
    }
    if ops != [] {
      var init := ops[..|ops| - 1];
      SetThroughoutIffSafe(init);
      if SafeRun(init) && !SafeRun(ops) {
        UnsafeRemoveShows(init, ops);
      }
    }
  }

  lemma UnsafeRemoveShows(init: seq<Op>, ops: seq<Op>)
    requires ops != [] && init == ops[..|ops| - 1] && SafeRun(init) && !SafeRun(ops)
    ensures !LikeSet(ops)
  {
    RunRefines(init);
    var t, pid := Run(init), ops[|ops| - 1].pid;
    var v := Find(t, pid).value;
    var s :| 0 <= s < |t| && s != v && t[s].active && OnPath(KeysOf(t), v, s);
    LostBehind(t, v, s);
    assert KeysOf(t)[s] == Some(t[s].pid) && KeysOf(t)[v] == Some(pid);
    assert Holds(KeysOf(t), t[s].pid);
    assert t[s].pid in SetRun(ops);
  }

  lemma {:induction false} AddOnlyIsSafe(ops: seq<Op>)
    requires forall op :: op in ops ==> op.AddOp?
    ensures SafeRun(ops)
  {
    if ops != [] {
      assert ops[|ops| - 1] in ops;
      AddOnlyIsSafe(ops[..|ops| - 1]);
    }
  }

  /** The pids of the run differ modulo the table size. */
  predicate DistinctHomes(ops: seq<Op>) {
    forall a, b :: a in ops && b in ops && a.pid != b.pid ==> Home(TABLE_SIZE, a.pid) != Home(TABLE_SIZE, b.pid)
  }

  ghost predicate AtHome(t: seq<Entry>, ops: seq<Op>) {
    forall s :: 0 <= s < |t| && t[s].active ==> Home(|t|, t[s].pid) == s && exists op :: op in ops && op.pid == t[s].pid
  }

  lemma {:induction false} DistinctHomesStayHome(ops: seq<Op>)
    requires DistinctHomes(ops)
    ensures AtHome(Run(ops), ops) && SafeRun(ops)
  {
    if ops != [] {
      var init, last := ops[..|ops| - 1], ops[|ops| - 1];
      assert ops == init + [last];
      assert forall op :: op in init ==> op in ops;
      DistinctHomesStayHome(init);
      var t := Run(init);
      AtHomeStep(t, init, last);
      if last.RemoveOp? && Find(t, last.pid).Some? {
        var v := Find(t, last.pid).value;
        forall s | 0 <= s < |t| && s != v && t[s].active ensures !OnPath(KeysOf(t), v, s) {
          assert Home(|t|, t[s].pid) == s;
        }
      }
    }
  }

  lemma AtHomeStep(t: seq<Entry>, init: seq<Op>, last: Op)
    requires |t| == TABLE_SIZE && AtHome(t, init) && DistinctHomes(init + [last])
    ensures AtHome(Apply(t, last), init + [last])
  {
    var ops := init + [last];
    var t' := Apply(t, last);
    assert last in ops;
    var k := KeysOf(t);
    var h := Home(|t|, last.pid);
    assert At(|t|, h, 0) == h;
    if last.AddOp? {
      if t[h].active {
        var op :| op in init && op.pid == t[h].pid;
        assert op in ops;
        assert Probe(k, last.pid) == Hit(h);
      } else {
        assert Probe(k, last.pid) == Gap(h);
      }
    }
    forall s | 0 <= s < |t'| && t'[s].active
      ensures Home(|t'|, t'[s].pid) == s && exists op :: op in ops && op.pid == t'[s].pid
    {
      if t'[s] == t[s] {
        var op :| op in init && op.pid == t[s].pid;
        assert op in ops;
      }
    }
  }

  /** Runs whose pids differ modulo 4096 are runs of a set, removes included. */
  lemma DistinctHomesIsSet(ops: seq<Op>, q: Pid)
    requires DistinctHomes(ops)
    ensures IsTracked(Run(ops), q) <==> q in SetRun(ops)
  {
    DistinctHomesStayHome(ops);
    SafeRunIsSet(ops, q);
  }

  /** Add-only runs are runs of a set. */
  lemma AddOnlyIsSet(ops: seq<Op>, q: Pid)
    requires forall op :: op in ops ==> op.AddOp?
    ensures IsTracked(Run(ops), q) <==> q in SetRun(ops)
  {
    AddOnlyIsSafe(ops);
    SafeRunIsSet(ops, q);
  }

  // ----- where the table is not a set

  /** The first four steps of a run from slots 1 and 2 of an otherwise untouched table. */
  lemma CollidingPair(t: seq<Entry>)
    requires |t| == TABLE_SIZE && !t[1].active && !t[2].active
    ensures var t1 := Add(t, 1, 0).0; var t2 := Add(t1, 4097, 0).0; var t3 := Remove(t2, 1);
      && t2 == t[1 := Entry(1, 0, true, true)][2 := Entry(4097, 0, true, true)]
      && t3 == t2[1 := Entry(1, 0, true, false)]
      && !IsTracked(t3, 4097)
  {
    var t1 := Add(t, 1, 0).0;
    ProbeHitsAtHome(t1);
    ProbeSecond(t1);
    var t2 := Add(t1, 4097, 0).0;
    assert At(TABLE_SIZE, 1, 0) == 1;
    assert Probe(KeysOf(t2), 1) == Hit(1);
  }

  lemma ProbeHitsAtHome(t: seq<Entry>)
    requires |t| == TABLE_SIZE && t[1].active && t[1].pid == 1
    ensures Probe(KeysOf(t), 1) == Hit(1)
  {
    assert At(TABLE_SIZE, 1, 0) == 1;
  }

  lemma ProbeSecond(t: seq<Entry>)
    requires |t| == TABLE_SIZE && t[1].active && t[1].pid == 1
    ensures Probe(KeysOf(t), 4097) ==
      if !t[2].active then Gap(2) else if t[2].pid == 4097 then Hit(2) else ProbeFrom(KeysOf(t), 4097, 2)
  {
    assert Home(TABLE_SIZE, 4097) == 1;
    assert At(TABLE_SIZE, 1, 0) == 1 && At(TABLE_SIZE, 1, 1) == 2;
    assert Probe(KeysOf(t), 4097) == ProbeFrom(KeysOf(t), 4097, 1);
  }

  /** Adding 1 and 4097 and removing 1 loses 4097: the set has it, its entry is active, no lookup finds it. */
  lemma RemoveLosesCollidingPid()
    ensures var ops := [AddOp(1, 0), AddOp(4097, 0), RemoveOp(1)];
      4097 in SetRun(ops) && Run(ops)[2] == Entry(4097, 0, true, true) && !IsTracked(Run(ops), 4097)
  {
    var ops := [AddOp(1, 0), AddOp(4097, 0), RemoveOp(1)];
    assert ops[..2] == [AddOp(1, 0), AddOp(4097, 0)] && ops[..2][..1] == [AddOp(1, 0)] && ops[..2][..1][..0] == [];
    CollidingPair(EmptyTable());
    assert Run(ops[..2][..1]) == Add(EmptyTable(), 1, 0).0;
    assert SetRun(ops[..2][..1]) == {1};
    assert SetRun(ops[..2]) == {1, 4097};
  }

  /** Worse: once the lost pid is added again it sits in two slots, and after its removal the next add at its
      home slot brings it back without any add of that pid. */
  lemma RemovedPidComesBack(t: seq<Entry>)
    requires |t| == TABLE_SIZE && !t[1].active && !t[2].active
    ensures var t3 := Remove(Add(Add(t, 1, 0).0, 4097, 0).0, 1);
      var t5 := Remove(Add(t3, 4097, 0).0, 4097);
      !IsTracked(t5, 4097) && IsTracked(Add(t5, 1, 0).0, 4097)
  {
    CollidingPair(t);
    var t3 := Remove(Add(Add(t, 1, 0).0, 4097, 0).0, 1);
    assert Home(TABLE_SIZE, 4097) == 1 && At(TABLE_SIZE, 1, 0) == 1;
    assert Probe(KeysOf(t3), 4097) == Gap(1);
    var t4 := Add(t3, 4097, 0).0;
    assert Probe(KeysOf(t4), 4097) == Hit(1);
    var t5 := Remove(t4, 4097);
    assert Probe(KeysOf(t5), 4097) == Gap(1) && Probe(KeysOf(t5), 1) == Gap(1);
    ProbeSecond(Add(t5, 1, 0).0);
  }

  // ----- the table itself

  class PidTable {
    const entries: array<Entry>

    ghost predicate Valid()
      reads entries
    {
      entries.Length == TABLE_SIZE && ActiveTracked(entries[..])
    }

    constructor ()
      ensures Valid() && fresh(entries)
      ensures entries[..] == EmptyTable()
    {
      entries := new Entry[TABLE_SIZE](_ => ZERO_ENTRY);
      new;
      assert entries[..] == EmptyTable();
    }

    method FindEntry(pid: Pid) returns (found: Option<nat>)
      requires Valid()
      ensures found == Find(entries[..], pid)
    {
      var hash := Unsigned(pid) % TABLE_SIZE;
      ghost var k := KeysOf(entries[..]);
      var i := 0;
      while i < TABLE_SIZE
        invariant i <= TABLE_SIZE
        invariant Probe(k, pid) == ProbeFrom(k, pid, i)
      {
        var idx := (hash + i) % TABLE_SIZE;
        assert At(TABLE_SIZE, hash, i) == idx;
        if !entries[idx].active {
          return None;
        }
        if entries[idx].pid == pid {
          return Some(idx);
        }
        i := i + 1;
      }
      return None;
    }

    method AddPid(pid: Pid, ppid: Pid) returns (ok: bool)
      requires Valid()
      modifies entries
      ensures Valid()
      ensures (entries[..], ok) == Add(old(entries[..]), pid, ppid)
    {
      ghost var t := entries[..];
      ghost var k := KeysOf(t);
      AddTracks(t, pid, ppid);
      var hash := Unsigned(pid) % TABLE_SIZE;
      var existing := FindEntry(pid);
      if existing.Some? {
        return true;
      }
      var i := 0;
      while i < TABLE_SIZE
        invariant i <= TABLE_SIZE
        invariant Probe(k, pid) == ProbeFrom(k, pid, i) && !Probe(k, pid).Hit?
        invariant entries[..] == t
      {
        var idx := (hash + i) % TABLE_SIZE;
        assert At(TABLE_SIZE, hash, i) == idx;
        if !entries[idx].active {
          entries[idx] := Entry(pid, ppid, true, true);
          assert entries[..] == t[idx := Entry(pid, ppid, true, true)];
          return true;
        }
        i := i + 1;
      }
      return false;
    }

    method RemovePid(pid: Pid)
      requires Valid()
      modifies entries
      ensures Valid()
      ensures entries[..] == Remove(old(entries[..]), pid)
    {
      ghost var t := entries[..];
      RemoveUntracks(t, pid);
      var entry := FindEntry(pid);
      if entry.Some? {
        entries[entry.value] := entries[entry.value].(active := false);
        assert entries[..] == Remove(t, pid);
      }
    }

    method IsTrackedPid(pid: Pid) returns (r: bool)
      requires Valid()
      ensures r == IsTracked(entries[..], pid)
    {
      var entry := FindEntry(pid);
      r := entry.Some? && entries[entry.value].tracked;
    }
  }
}
