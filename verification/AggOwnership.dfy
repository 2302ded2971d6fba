/** Whose elements an exit flush may touch: from its start to its end, in every interleaving, those of its pid alone. */
module AggOwnership {
  import opened AggMap
  import opened AggProtocol

  /** An exit flush of `pid` is under way. */
  predicate InExit(f: Flusher, pid: nat) {
    (f.ExitScan? || f.ExitFound? || f.ExitDeletes?) && f.pid == pid
  }

  /** Every line is of `pid`. */
  predicate OwnLines(lines: seq<Elem>, pid: nat) {
    forall e :: e in lines ==> e.key.pid == pid
  }

  lemma OwnLinesAppend(a: seq<Elem>, b: seq<Elem>, pid: nat)
    requires OwnLines(a, pid) && OwnLines(b, pid)
    ensures OwnLines(a + b, pid)
  {
  }

  /** The elements of all pids but `pid` are the same in both maps. */
  ghost predicate SameOthers(before: map<Key, Slot>, after: map<Key, Slot>, pid: nat) {
    forall k: Key :: k.pid != pid ==> (k in before <==> k in after) && (k in before ==> after[k] == before[k])
  }

  /** What a step printed: the lines added at the end. */
  function Added(before: State, after: State): (lines: seq<Elem>) {
    if |before.printed| <= |after.printed| then after.printed[|before.printed|..] else []
  }

  /** The keys an exit flush has visited, is looking at or is going to delete are its pid's. */
  ghost predicate OwnWork(f: Flusher, pid: nat) {
    && (f.ExitScan? || f.ExitFound? ==> OwnKeys(f.visited, pid))
    && (f.ExitFound? ==> f.key.pid == pid)
    && (f.ExitScan? || f.ExitFound? || f.ExitDeletes? ==> forall k :: k in f.taken ==> k.pid == pid)
  }

  lemma WorkIsOwn(ncpu: nat, steps: seq<Step>, pid: nat)
    requires InExit(Run(ncpu, steps).flusher, pid)
    ensures OwnWork(Run(ncpu, steps).flusher, pid)
  {
    RunKeeps(ncpu, steps);
  }

  /** A step of an exit flush leaves every element of another pid as it was: it neither prints nor marks nor deletes
      one. */
  lemma ExitStepTouchesOwn(ncpu: nat, steps: seq<Step>, step: ExitStep, pid: nat)
    requires InExit(Run(ncpu, steps).flusher, pid)
    ensures var s, s' := Run(ncpu, steps), Next(Run(ncpu, steps), Exit(step));
      && SameOthers(s.live, s'.live, pid)
      && s'.printed == s.printed + Added(s, s') && OwnLines(Added(s, s'), pid)
      && (InExit(s'.flusher, pid) || s'.flusher.Rest?)
  {
    WorkIsOwn(ncpu, steps, pid);
  }

  /** Elements of other pids that no flush has printed are still there, unprinted, with no count lost. */
  ghost predicate OthersKept(before: map<Key, Slot>, after: map<Key, Slot>, pid: nat) {
    forall k: Key :: k in before && k.pid != pid && !before[k].printed ==>
      k in after && !after[k].printed && after[k].count >= before[k].count
  }

  lemma OthersKeptOn(a: map<Key, Slot>, b: map<Key, Slot>, c: map<Key, Slot>, pid: nat)
    requires OthersKept(a, b, pid) && OthersKept(b, c, pid)
    ensures OthersKept(a, c, pid)
  {
  }

  /** A step of a CPU prints nothing, leaves the flusher alone and takes nothing from the map. */
  lemma CpuStepKeepsOthers(s: State, step: CpuStep, pid: nat)
    ensures var s' := CpuNext(s, step);
      s'.printed == s.printed && s'.flusher == s.flusher && OthersKept(s.live, s'.live, pid)
  {
    match step {
      case Begin(_, _) =>
      case Add(_) =>
      case Insert(_, _) =>
    }
  }

  /** From `s` to `s'` every line printed is of `pid`, and elements of other pids were only added to. */
  ghost predicate TouchesOwn(s: State, s': State, pid: nat) {
    && s'.printed == s.printed + Added(s, s') && OwnLines(Added(s, s'), pid)
    && OthersKept(s.live, s'.live, pid)
    && (InExit(s'.flusher, pid) || s'.flusher.Rest?)
  }

  lemma TouchesOwnOn(s: State, s1: State, s2: State, pid: nat)
    requires TouchesOwn(s, s1, pid) && TouchesOwn(s1, s2, pid)
    ensures TouchesOwn(s, s2, pid)
  {
    OthersKeptOn(s.live, s1.live, s2.live, pid);
    OwnLinesAppend(Added(s, s1), Added(s1, s2), pid);
    assert s2.printed == s.printed + (Added(s, s1) + Added(s1, s2));
  }

  lemma CpuTouchesOwn(s: State, step: CpuStep, pid: nat)
    requires InExit(s.flusher, pid)
    ensures TouchesOwn(s, CpuNext(s, step), pid)
  {
    CpuStepKeepsOthers(s, step, pid);
  }

  lemma ExitTouchesOwn(ncpu: nat, steps: seq<Step>, step: ExitStep, pid: nat)
    requires InExit(Run(ncpu, steps).flusher, pid)
    ensures TouchesOwn(Run(ncpu, steps), ExitNextState(Run(ncpu, steps), step), pid)
  {
    ExitStepTouchesOwn(ncpu, steps, step, pid);
  }

  /** The other flushes wait for the exit flush to end. */
  lemma OthersWait(s: State, pid: nat)
    requires InExit(s.flusher, pid)
    ensures TouchesOwn(s, s, pid)
    ensures forall a: AggStep :: AggNextState(s, a) == s
    ensures forall o: OvfStep :: OvfNextState(s, o) == s
  {
    assert s.printed + [] == s.printed;
  }

  lemma StepInExit(ncpu: nat, steps: seq<Step>, step: Step, pid: nat)
    requires InExit(Run(ncpu, steps).flusher, pid)
    ensures TouchesOwn(Run(ncpu, steps), Next(Run(ncpu, steps), step), pid)
  {
    var s := Run(ncpu, steps);
    OthersWait(s, pid);
    match step {
      case Cpu(c) => CpuTouchesOwn(s, c, pid);
      case Exit(e) => ExitTouchesOwn(ncpu, steps, e, pid);
      case Agg(a) => assert AggNextState(s, a) == s;
      case Ovf(o) => assert OvfNextState(s, o) == s;
    }
  }

  function Started(before: seq<Step>, pid: nat, during: seq<Step>): seq<Step> {
    before + [Exit(ExitStart(pid))] + during
  }

  /** The flusher has not come to rest before the last of the steps. */
  ghost predicate StillBusy(ncpu: nat, before: seq<Step>, pid: nat, during: seq<Step>) {
    forall n :: 0 <= n < |during| ==> !Run(ncpu, Started(before, pid, during[..n])).flusher.Rest?
  }

  lemma StartTouchesOwn(ncpu: nat, before: seq<Step>, pid: nat)
    requires Run(ncpu, before).flusher.Rest?
    ensures TouchesOwn(Run(ncpu, before), Run(ncpu, Started(before, pid, [])), pid)
  {
    assert Started(before, pid, []) == before + [Exit(ExitStart(pid))];
    RunNext(ncpu, before, Exit(ExitStart(pid)));
  }

  lemma StartedNext(ncpu: nat, before: seq<Step>, pid: nat, during: seq<Step>, step: Step)
    ensures Run(ncpu, Started(before, pid, during + [step])) == Next(Run(ncpu, Started(before, pid, during)), step)
  {
    assert Started(before, pid, during + [step]) == Started(before, pid, during) + [step];
    RunNext(ncpu, Started(before, pid, during), step);
  }

  lemma BusyBefore(ncpu: nat, before: seq<Step>, pid: nat, during: seq<Step>)
    requires StillBusy(ncpu, before, pid, during) && during != []
    ensures var init := during[..|during| - 1];
      StillBusy(ncpu, before, pid, init) && !Run(ncpu, Started(before, pid, init)).flusher.Rest?
  {
    var init := during[..|during| - 1];
    assert forall n :: 0 <= n < |init| ==> init[..n] == during[..n];
  }

  /** From the start of an exit flush to its end, whatever the CPUs do meanwhile, every line printed is of its pid, and
      every element of another pid stays, unprinted and with no count lost. */
  lemma {:induction false} ExitFlushTouchesOwn(ncpu: nat, before: seq<Step>, pid: nat, during: seq<Step>)
    requires Run(ncpu, before).flusher.Rest? && StillBusy(ncpu, before, pid, during)
    ensures TouchesOwn(Run(ncpu, before), Run(ncpu, Started(before, pid, during)), pid)
  {
    if during == [] {
      StartTouchesOwn(ncpu, before, pid);
    } else {
      var init, last := during[..|during| - 1], during[|during| - 1];
      BusyBefore(ncpu, before, pid, during);
      ExitFlushTouchesOwn(ncpu, before, pid, init);
      StepInExit(ncpu, Started(before, pid, init), last, pid);
      StartedNext(ncpu, before, pid, init, last);
      assert during == init + [last];
      TouchesOwnOn(Run(ncpu, before), Run(ncpu, Started(before, pid, init)), Run(ncpu, Started(before, pid, during)), pid);
    }
  }
}
