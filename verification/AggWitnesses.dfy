/** Two interleavings of the aggregation protocol: one that misses an event, and one that reports an event twice. */
module AggWitnesses {
  import opened AggMap
  import opened AggProtocol

  lemma RunTwo(ncpu: nat, steps: seq<Step>, a: Step, b: Step)
    ensures Run(ncpu, steps + [a, b]) == Next(Next(Run(ncpu, steps), a), b)
  {
    RunNext(ncpu, steps, a);
    RunNext(ncpu, steps + [a], b);
    assert steps + [a] + [b] == steps + [a, b];
  }

  /** Key `i` of pid 1. */
  function NumberedKey(i: nat): Key {
    Key(1, 10 + i, "")
  }

  /** `n` keys with one event each. */
  function Filled(n: nat): map<Key, Slot> {
    if n == 0 then map[] else Filled(n - 1)[NumberedKey(n - 1) := Slot(n - 1, 1, false)]
  }

  lemma {:induction false} FilledHas(n: nat)
    ensures |Filled(n)| == n && forall k :: k in Filled(n) ==> k.eventType < 10 + n && Filled(n)[k].cell < n
    ensures forall i :: 0 <= i < n ==> NumberedKey(i) in Filled(n) && Filled(n)[NumberedKey(i)].count == 1
  {
    if n > 0 {
      FilledHas(n - 1);
    }
  }

  function FilledState(n: nat): State {
    State(Filled(n), [0], map[], Rest, [], 0, n, 0, 0)
  }

  lemma FillOne(n: nat)
    requires n < MAX_ENTRIES
    ensures Next(Next(FilledState(n), Cpu(Begin(0, NumberedKey(n)))), Cpu(Insert(0, n))) == FilledState(n + 1)
  {
    FilledHas(n);
    var s1 := Next(FilledState(n), Cpu(Begin(0, NumberedKey(n))));
    assert s1.cpus == map[0 := Missing(NumberedKey(n))];
    assert !InUse(s1, n) && s1.cpus - {0} == map[];
  }

  lemma FillNone()
    ensures Run(1, []) == FilledState(0)
  {
    assert Initial(1).overflow == [0];
  }

  lemma FillMore(steps: seq<Step>, n: nat) returns (steps': seq<Step>)
    requires Run(1, steps) == FilledState(n) && n < MAX_ENTRIES
    ensures Run(1, steps') == FilledState(n + 1)
  {
    FillOne(n);
    RunTwo(1, steps, Cpu(Begin(0, NumberedKey(n))), Cpu(Insert(0, n)));
    steps' := steps + [Cpu(Begin(0, NumberedKey(n))), Cpu(Insert(0, n))];
  }

  lemma {:induction false} FillKeys(n: nat) returns (steps: seq<Step>)
    requires n <= MAX_ENTRIES
    ensures Run(1, steps) == FilledState(n)
  {
    if n == 0 {
      steps := [];
      FillNone();
    } else {
      steps := FillKeys(n - 1);
      steps := FillMore(steps, n - 1);
    }
  }

  /** An event is printed, and a second update of its key has found the element before the delete. */
  lemma UpdateAfterPrint() returns (steps: seq<Step>)
    ensures Run(1, steps) ==
      State(map[NumberedKey(0) := Slot(0, 1, true)], [0], map[0 := Found(0)], AggPrinted(NumberedKey(0)),
            [Elem(NumberedKey(0), 1)], 0, 2, 0, 0)
  {
    steps := FillKeys(1);
    assert Filled(1) == map[NumberedKey(0) := Slot(0, 1, false)];
    RunNext(1, steps, Agg(AggStart));
    steps := steps + [Agg(AggStart)];
    RunNext(1, steps, Agg(AggNext(NumberedKey(0))));
    steps := steps + [Agg(AggNext(NumberedKey(0)))];
    RunNext(1, steps, Agg(AggLookup));
    steps := steps + [Agg(AggLookup)];
    assert Run(1, steps).live == map[NumberedKey(0) := Slot(0, 1, true)];
    RunNext(1, steps, Cpu(Begin(0, NumberedKey(0))));
    steps := steps + [Cpu(Begin(0, NumberedKey(0)))];
    assert Run(1, steps).cpus == map[0 := Found(0)];
  }

  /** An update between the lookup and the delete is missed: of two events, one is reported. */
  lemma UpdateCanBeMissed() returns (steps: seq<Step>)
    ensures var s := Run(1, steps);
      && AtMost256(1, steps) && !NoWindowUpdate(1, steps) && s.flusher.Rest? && s.cpus == map[]
      && Reported(s) == 1 && s.events == 2
  {
    steps := UpdateAfterPrint();
    AddThenDelete(Run(1, steps));
    RunTwo(1, steps, Cpu(Add(0)), Agg(AggDelete));
    steps := steps + [Cpu(Add(0)), Agg(AggDelete)];
    RunNext(1, steps, Agg(AggEnd));
    steps := steps + [Agg(AggEnd)];
    EveryEventAccounted(1, steps);
    MissedIff(1, steps);
    RepeatedIff(1, steps);
  }

  lemma AddThenDelete(s: State)
    requires s.live == map[NumberedKey(0) := Slot(0, 1, true)] && s.cpus == map[0 := Found(0)]
    requires s.flusher == AggPrinted(NumberedKey(0))
    ensures var s' := Next(Next(s, Cpu(Add(0))), Agg(AggDelete));
      s'.cpus == map[] && s'.missed == s.missed + 1 && s'.repeated == s.repeated && s'.events == s.events
      && s'.flusher == AggScan
  {
    assert NumberedKey(0) in s.live && s.live[NumberedKey(0)].cell == 0;
    assert InUse(s, 0) && KeyOf(s, 0) == NumberedKey(0);
    assert s.cpus - {0} == map[];
  }

  /** An exit flush of pid 1 that has collected `n` of `total` keys. */
  ghost predicate Collected(s: State, n: nat, total: nat) {
    && s.flusher.ExitScan? && s.flusher.pid == 1 && |s.flusher.taken| == n
    && (forall k :: k in s.flusher.visited ==> k.eventType < 10 + n)
    && (forall i :: 0 <= i < total ==> NumberedKey(i) in s.live && s.live[NumberedKey(i)].count == 1)
    && s.cpus == map[] && s.missed == 0 && s.repeated == 0
  }

  lemma CollectOne(s: State, n: nat, total: nat)
    requires Collected(s, n, total) && n < total
    ensures var found := Next(s, Exit(ExitNext(NumberedKey(n))));
      && (n < MAX_DELETIONS ==> Collected(Next(found, Exit(ExitLookup)), n + 1, total))
      && (n == MAX_DELETIONS ==>
            Next(found, Exit(ExitLookup)).repeated == 1 && found.cpus == map[] && found.missed == 0)
  {
    assert NumberedKey(n) in s.live && NumberedKey(n) !in s.flusher.visited;
  }

  lemma {:induction false} CollectKeys(n: nat, total: nat) returns (steps: seq<Step>)
    requires n <= MAX_DELETIONS && n <= total <= MAX_ENTRIES
    ensures Collected(Run(1, steps), n, total)
  {
    if n == 0 {
      steps := FillKeys(total);
      FilledHas(total);
      RunNext(1, steps, Exit(ExitStart(1)));
      steps := steps + [Exit(ExitStart(1))];
    } else {
      steps := CollectKeys(n - 1, total);
      CollectOne(Run(1, steps), n - 1, total);
      RunNext(1, steps, Exit(ExitNext(NumberedKey(n - 1))));
      steps := steps + [Exit(ExitNext(NumberedKey(n - 1)))];
      RunNext(1, steps, Exit(ExitLookup));
      steps := steps + [Exit(ExitLookup)];
    }
  }

  /** With a 257th key an exit flush reports an event it will report again. */
  lemma EventCanBeRepeated() returns (steps: seq<Step>)
    ensures !AtMost256(1, steps) && Reported(Run(1, steps)) == Run(1, steps).events + 1
  {
    steps := RepeatAt(MAX_DELETIONS);
  }

  lemma RepeatAt(n: nat) returns (steps: seq<Step>)
    requires n == MAX_DELETIONS
    ensures !AtMost256(1, steps) && Reported(Run(1, steps)) == Run(1, steps).events + 1
  {
    steps := CollectKeys(n, n + 1);
    CollectOne(Run(1, steps), n, n + 1);
    RunNext(1, steps, Exit(ExitNext(NumberedKey(n))));
    steps := steps + [Exit(ExitNext(NumberedKey(n)))];
    var s := Run(1, steps);
    RunNext(1, steps, Exit(ExitLookup));
    steps := steps + [Exit(ExitLookup)];
    EveryEventAccounted(1, steps);
    RepeatedIff(1, steps);
    assert Run(1, steps).cpus == s.cpus && Run(1, steps).missed == s.missed;
  }
}
