/** The protocol when nothing is interleaved: each flush alone is the sequential one, and each update alone counts for
    its key. */
module AggAlone {
  import opened AggMap
  import opened AggProtocol

  ghost function RunFrom(s: State, steps: seq<Step>): State {
    if steps == [] then s else Next(RunFrom(s, steps[..|steps| - 1]), steps[|steps| - 1])
  }

  lemma {:induction false} RunFromAppend(s: State, a: seq<Step>, b: seq<Step>)
    ensures RunFrom(s, a + b) == RunFrom(RunFrom(s, a), b)
  {
    if b == [] {
      assert a + b == a;
    } else {
      var last := b[|b| - 1];
      assert (a + b)[..|a + b| - 1] == a + b[..|b| - 1];
      RunFromAppend(s, a, b[..|b| - 1]);
    }
  }

  lemma RunFromNext(s: State, a: seq<Step>, step: Step)
    ensures RunFrom(s, a + [step]) == Next(RunFrom(s, a), step)
  {
    assert (a + [step])[..|a|] == a;
  }

  /** Going on from a state a run has reached is going on with the run. */
  lemma {:induction false} RunGoesOn(ncpu: nat, a: seq<Step>, b: seq<Step>)
    ensures Run(ncpu, a + b) == RunFrom(Run(ncpu, a), b)
  {
    if b == [] {
      assert a + b == a;
    } else {
      assert (a + b)[..|a + b| - 1] == a + b[..|b| - 1];
      RunGoesOn(ncpu, a, b[..|b| - 1]);
    }
  }

  // ----- the map and an order of its elements

  /** The counts by key. */
  function AsMap(elems: seq<Elem>): map<Key, nat> {
    if elems == [] then map[] else AsMap(elems[1..])[elems[0].key := elems[0].count]
  }

  function Counts(live: map<Key, Slot>): map<Key, nat> {
    map k | k in live :: live[k].count
  }

  /** The elements of the map in an order of iteration. */
  ghost predicate Represents(live: map<Key, Slot>, elems: seq<Elem>) {
    DistinctKeys(elems) && Counts(live) == AsMap(elems)
  }

  function KeySet(s: seq<Elem>): set<Key> {
    set i | 0 <= i < |s| :: s[i].key
  }

  function Take(s: seq<Elem>, n: nat): seq<Elem> {
    if n < |s| then s[..n] else s
  }

  lemma KeySetCons(e: Elem, s: seq<Elem>)
    ensures KeySet([e] + s) == {e.key} + KeySet(s)
  {
    var t := [e] + s;
    assert t[0] == e;
    forall k | k in KeySet(s) ensures k in KeySet(t) {
      var i :| 0 <= i < |s| && s[i].key == k;
      assert t[i + 1] == s[i];
    }
  }

  lemma KeySetSnoc(s: seq<Elem>, e: Elem)
    ensures KeySet(s + [e]) == KeySet(s) + {e.key}
  {
    var t := s + [e];
    assert t[|s|] == e;
    forall k | k in KeySet(s) ensures k in KeySet(t) {
      var i :| 0 <= i < |s| && s[i].key == k;
      assert t[i] == s[i];
    }
  }

  lemma {:induction false} AsMapKeys(s: seq<Elem>)
    ensures AsMap(s).Keys == KeySet(s)
  {
    if s != [] {
      AsMapKeys(s[1..]);
      KeySetCons(s[0], s[1..]);
      assert s == [s[0]] + s[1..];
    }
  }

  lemma {:induction false} AsMapHas(s: seq<Elem>, i: nat)
    requires DistinctKeys(s) && i < |s|
    ensures s[i].key in AsMap(s) && AsMap(s)[s[i].key] == s[i].count
  {
    if i > 0 {
      AsMapHas(s[1..], i - 1);
      assert s[0].key != s[i].key;
    }
  }

  lemma FirstIsAlone(s: seq<Elem>)
    requires DistinctKeys(s) && s != []
    ensures DistinctKeys(s[1..]) && s[0].key !in KeySet(s[1..])
  {
  }

  lemma KeySetWithin(s: seq<Elem>, t: seq<Elem>)
    requires forall e :: e in s ==> e in t
    ensures KeySet(s) <= KeySet(t)
  {
    forall k | k in KeySet(s) ensures k in KeySet(t) {
      var i :| 0 <= i < |s| && s[i].key == k;
      assert s[i] in t;
    }
  }

  /** Dropping a pid's first elements takes their keys out of the map. */
  lemma {:induction false} DropFirstMap(s: seq<Elem>, pid: nat, n: nat)
    requires DistinctKeys(s)
    ensures AsMap(DropFirst(s, pid, n)) == AsMap(s) - KeySet(Take(OfPid(s, pid), n))
  {
    if n == 0 {
      assert Take(OfPid(s, pid), 0) == [];
    } else if s != [] {
      FirstIsAlone(s);
      AsMapKeys(s[1..]);
      DropFirstMap(s[1..], pid, n - 1);
      DropFirstMap(s[1..], pid, n);
      DropFirstMapNext(s[0], s[1..], pid, n);
      assert s == [s[0]] + s[1..];
    }
  }

  lemma AsMapCons(e: Elem, s: seq<Elem>)
    ensures AsMap([e] + s) == AsMap(s)[e.key := e.count]
  {
    assert ([e] + s)[1..] == s;
  }

  lemma GoesToo(m: map<Key, nat>, k: Key, c: nat, gone: set<Key>)
    requires k !in m
    ensures m[k := c] - ({k} + gone) == m - gone
  {
  }

  lemma Stays(m: map<Key, nat>, k: Key, c: nat, gone: set<Key>)
    requires k !in gone
    ensures m[k := c] - gone == (m - gone)[k := c]
  {
  }

  lemma DropFirstMapNext(e: Elem, s: seq<Elem>, pid: nat, n: nat)
    requires n > 0 && e.key !in AsMap(s)
    requires AsMap(DropFirst(s, pid, n - 1)) == AsMap(s) - KeySet(Take(OfPid(s, pid), n - 1))
    requires AsMap(DropFirst(s, pid, n)) == AsMap(s) - KeySet(Take(OfPid(s, pid), n))
    ensures AsMap(DropFirst([e] + s, pid, n)) == AsMap([e] + s) - KeySet(Take(OfPid([e] + s, pid), n))
  {
    var own := OfPid(s, pid);
    AsMapCons(e, s);
    DropFirstCons(e, s, pid, n);
    OfPidCons(e, s, pid);
    if e.key.pid == pid {
      TakeCons(e, own, n);
      KeySetCons(e, Take(own, n - 1));
      GoesToo(AsMap(s), e.key, e.count, KeySet(Take(own, n - 1)));
    } else {
      AsMapCons(e, DropFirst(s, pid, n));
      AsMapKeys(s);
      KeySetWithin(Take(own, n), s);
      Stays(AsMap(s), e.key, e.count, KeySet(Take(own, n)));
    }
  }

  lemma TakeCons(e: Elem, s: seq<Elem>, n: nat)
    requires n > 0
    ensures Take([e] + s, n) == [e] + Take(s, n - 1)
  {
  }

  lemma SplitCons(e: Elem, s: seq<Elem>)
    ensures Positive([e] + s) == if e.count > 0 then [e] + Positive(s) else Positive(s)
    ensures Zeros([e] + s) == if e.count > 0 then Zeros(s) else [e] + Zeros(s)
  {
    assert ([e] + s)[1..] == s;
    assert [] + Zeros(s) == Zeros(s) && [] + Positive(s) == Positive(s);
  }

  lemma ZerosMapNext(e: Elem, s: seq<Elem>)
    requires e.key !in AsMap(s)
    requires AsMap(Zeros(s)) == AsMap(s) - KeySet(Positive(s)) && KeySet(Positive(s)) <= AsMap(s).Keys
    ensures AsMap(Zeros([e] + s)) == AsMap([e] + s) - KeySet(Positive([e] + s))
    ensures KeySet(Positive([e] + s)) <= AsMap([e] + s).Keys
  {
    AsMapCons(e, s);
    SplitCons(e, s);
    if e.count > 0 {
      KeySetCons(e, Positive(s));
      GoesToo(AsMap(s), e.key, e.count, KeySet(Positive(s)));
    } else {
      AsMapCons(e, Zeros(s));
      Stays(AsMap(s), e.key, e.count, KeySet(Positive(s)));
    }
  }

  /** Dropping the elements that count takes their keys out of the map. */
  lemma {:induction false} ZerosMap(s: seq<Elem>)
    requires DistinctKeys(s)
    ensures AsMap(Zeros(s)) == AsMap(s) - KeySet(Positive(s))
    ensures KeySet(Positive(s)) <= AsMap(s).Keys
  {
    if s != [] {
      FirstIsAlone(s);
      AsMapKeys(s[1..]);
      ZerosMap(s[1..]);
      ZerosMapNext(s[0], s[1..]);
      assert s == [s[0]] + s[1..];
    }
  }

  lemma {:induction false} OfPidDistinct(s: seq<Elem>, pid: nat)
    requires DistinctKeys(s)
    ensures DistinctKeys(OfPid(s, pid))
  {
    if s != [] {
      FirstIsAlone(s);
      OfPidDistinct(s[1..], pid);
      var own := OfPid(s[1..], pid);
      KeySetWithin(own, s[1..]);
      assert forall i :: 0 <= i < |own| ==> own[i].key in KeySet(own);
    }
  }

  // ----- an exit flush alone

  /** What a flush does not change. */
  predicate SameRest(s: State, s': State) {
    s'.overflow == s.overflow && s'.cpus == s.cpus && s'.events == s.events && s'.overflowPrinted == s.overflowPrinted
  }

  function KeysOf(s: seq<Elem>): (r: seq<Key>)
    ensures |r| == |s| && forall i :: 0 <= i < |s| ==> r[i] == s[i].key
  {
    seq(|s|, i requires 0 <= i < |s| => s[i].key)
  }

  /** One visit to each element: next key, then lookup. */
  function Visits(own: seq<Elem>): seq<Step> {
    if own == [] then []
    else Visits(own[..|own| - 1]) + [Exit(ExitNext(own[|own| - 1].key)), Exit(ExitLookup)]
  }

  /** An exit flush begun in `s` that has visited the elements of `seen`. */
  ghost predicate Scanning(s: State, s': State, pid: nat, seen: seq<Elem>) {
    && s'.flusher == ExitScan(pid, KeySet(seen), KeysOf(Take(seen, MAX_DELETIONS)))
    && Counts(s'.live) == Counts(s.live)
    && s'.printed == s.printed + Positive(seen)
    && SameRest(s, s')
  }

  lemma RunFromTwo(s: State, steps: seq<Step>, a: Step, b: Step)
    ensures RunFrom(s, steps + [a, b]) == Next(Next(RunFrom(s, steps), a), b)
  {
    RunFromNext(s, steps, a);
    RunFromNext(s, steps + [a], b);
    assert steps + [a] + [b] == steps + [a, b];
  }

  lemma PositiveSnoc(s: seq<Elem>, e: Elem)
    ensures Positive(s + [e]) == Positive(s) + if e.count > 0 then [e] else []
  {
    PositiveAppend(s, [e]);
  }

  lemma KeysOfTakeSnoc(s: seq<Elem>, e: Elem, n: nat)
    ensures KeysOf(Take(s + [e], n)) == KeysOf(Take(s, n)) + if |s| < n then [e.key] else []
  {
  }

  lemma MarkCounts(live: map<Key, Slot>, key: Key)
    ensures Counts(Mark(live, key)) == Counts(live)
  {
  }

  lemma VisitOne(s: State, s': State, pid: nat, seen: seq<Elem>, e: Elem)
    requires Scanning(s, s', pid, seen)
    requires e.key.pid == pid && e.key !in KeySet(seen) && e.key in Counts(s.live) && Counts(s.live)[e.key] == e.count
    ensures Scanning(s, Next(Next(s', Exit(ExitNext(e.key))), Exit(ExitLookup)), pid, seen + [e])
  {
    assert Counts(s'.live)[e.key] == s'.live[e.key].count;
    KeySetSnoc(seen, e);
    KeysOfTakeSnoc(seen, e, MAX_DELETIONS);
    PositiveSnoc(seen, e);
    MarkCounts(s'.live, e.key);
    assert s.printed + Positive(seen) + SummaryOf(s', e.key) == s.printed + (Positive(seen) + SummaryOf(s', e.key));
  }

  lemma VisitsSnoc(start: seq<Step>, init: seq<Elem>, e: Elem)
    ensures start + Visits(init + [e]) == start + Visits(init) + [Exit(ExitNext(e.key)), Exit(ExitLookup)]
  {
    assert (init + [e])[..|init|] == init;
  }

  lemma VisitNone(s: State, pid: nat)
    requires s.flusher.Rest?
    ensures Scanning(s, RunFrom(s, [Exit(ExitStart(pid))] + Visits([])), pid, [])
  {
    assert [Exit(ExitStart(pid))] + [] == [Exit(ExitStart(pid))] && [Exit(ExitStart(pid))][..0] == [];
    assert s.printed + [] == s.printed;
  }

  lemma {:induction false} VisitAll(s: State, pid: nat, own: seq<Elem>)
    requires s.flusher.Rest? && DistinctKeys(own)
    requires forall e :: e in own ==> e.key.pid == pid && e.key in Counts(s.live) && Counts(s.live)[e.key] == e.count
    ensures Scanning(s, RunFrom(s, [Exit(ExitStart(pid))] + Visits(own)), pid, own)
  {
    if own == [] {
      VisitNone(s, pid);
    } else {
      var start, init, e := [Exit(ExitStart(pid))], own[..|own| - 1], own[|own| - 1];
      VisitAll(s, pid, init);
      LastIsNew(own);
      VisitOne(s, RunFrom(s, start + Visits(init)), pid, init, e);
      RunFromTwo(s, start + Visits(init), Exit(ExitNext(e.key)), Exit(ExitLookup));
      VisitsSnoc(start, init, e);
    }
  }

  lemma LastIsNew(own: seq<Elem>)
    requires own != [] && DistinctKeys(own)
    ensures own == own[..|own| - 1] + [own[|own| - 1]] && own[|own| - 1].key !in KeySet(own[..|own| - 1])
  {
  }

  function Times(step: Step, n: nat): seq<Step> {
    if n == 0 then [] else [step] + Times(step, n - 1)
  }

  lemma RunFromCons(s: State, step: Step, rest: seq<Step>)
    ensures RunFrom(s, [step] + rest) == RunFrom(Next(s, step), rest)
  {
    RunFromAppend(s, [step], rest);
    assert [step][..0] == [];
  }

  /** The flush done with its deletes. */
  function Deleted(s: State, taken: seq<Key>): State {
    s.(live := s.live - (set k | k in taken), flusher := Rest)
  }

  lemma DeleteNext(s: State, pid: nat, taken: seq<Key>)
    requires s.flusher == ExitDeletes(pid, taken)
    ensures var s' := Next(s, Exit(ExitDelete));
      if taken == [] then s' == Deleted(s, [])
      else s'.flusher == ExitDeletes(pid, taken[1..]) && Deleted(s', taken[1..]) == Deleted(s, taken)
  {
    if taken == [] {
      assert s.live - {} == s.live;
    } else {
      assert taken == [taken[0]] + taken[1..];
      assert (set k | k in taken) == {taken[0]} + (set k | k in taken[1..]);
      assert s.live - {taken[0]} - (set k | k in taken[1..]) == s.live - (set k | k in taken);
    }
  }

  ghost function Repeat(s: State, step: Step, n: nat): State
    decreases n
  {
    if n == 0 then s else Repeat(Next(s, step), step, n - 1)
  }

  lemma {:induction false} RepeatIsRun(s: State, step: Step, n: nat)
    ensures RunFrom(s, Times(step, n)) == Repeat(s, step, n)
    decreases n
  {
    if n > 0 {
      RunFromCons(s, step, Times(step, n - 1));
      RepeatIsRun(Next(s, step), step, n - 1);
    }
  }

  lemma {:induction false} DeletesRun(s: State, pid: nat, taken: seq<Key>, step: Step)
    requires s.flusher == ExitDeletes(pid, taken) && step == Exit(ExitDelete)
    ensures Repeat(s, step, |taken| + 1) == Deleted(s, taken)
    decreases |taken|
  {
    DeleteNext(s, pid, taken);
    if taken != [] {
      DeletesRun(Next(s, step), pid, taken[1..], step);
    }
  }

  /** The steps of an exit flush over all elements of the pid, in order of iteration. */
  function ExitSteps(elems: seq<Elem>, pid: nat): seq<Step> {
    var own := OfPid(elems, pid);
    [Exit(ExitStart(pid))] + Visits(own) + [Exit(ExitScanned)]
    + Times(Exit(ExitDelete), |Take(own, MAX_DELETIONS)| + 1)
  }

  lemma TakenKeys(s: seq<Elem>)
    ensures (set k | k in KeysOf(s)) == KeySet(s)
  {
    forall k ensures k in KeysOf(s) <==> k in KeySet(s) {
      if k in KeysOf(s) {
        var i :| 0 <= i < |s| && KeysOf(s)[i] == k;
        assert s[i].key == k;
      }
      if k in KeySet(s) {
        var i :| 0 <= i < |s| && s[i].key == k;
        assert KeysOf(s)[i] == k;
      }
    }
  }

  lemma CountsRemove(live: map<Key, Slot>, keys: set<Key>)
    ensures Counts(live - keys) == Counts(live) - keys
  {
  }

  lemma OwnCounts(live: map<Key, Slot>, elems: seq<Elem>, pid: nat)
    requires Represents(live, elems)
    ensures forall e :: e in OfPid(elems, pid) ==>
      e.key.pid == pid && e.key in Counts(live) && Counts(live)[e.key] == e.count
  {
    forall e | e in OfPid(elems, pid) ensures e.key in Counts(live) && Counts(live)[e.key] == e.count {
      var i :| 0 <= i < |elems| && elems[i] == e;
      AsMapHas(elems, i);
    }
  }

  /** Alone, an exit flush is the sequential one: it prints all the pid's elements that count, in order, with their
      counts, drops the pid's first 256, and leaves everything else. */
  lemma ExitFlushAlone(s: State, elems: seq<Elem>, pid: nat)
    requires s.flusher.Rest? && Represents(s.live, elems)
    ensures var s' := RunFrom(s, ExitSteps(elems, pid));
      && s'.printed == s.printed + Positive(OfPid(elems, pid))
      && Counts(s'.live) == AsMap(DropFirst(elems, pid, MAX_DELETIONS))
      && s'.flusher.Rest? && SameRest(s, s')
  {
    var own := OfPid(elems, pid);
    var taken := KeysOf(Take(own, MAX_DELETIONS));
    var scan := [Exit(ExitStart(pid))] + Visits(own);
    OfPidDistinct(elems, pid);
    OwnCounts(s.live, elems, pid);
    VisitAll(s, pid, own);
    var s1 := RunFrom(s, scan);
    RunFromNext(s, scan, Exit(ExitScanned));
    var s2 := Next(s1, Exit(ExitScanned));
    RunFromAppend(s, scan + [Exit(ExitScanned)], Times(Exit(ExitDelete), |taken| + 1));
    RepeatIsRun(s2, Exit(ExitDelete), |taken| + 1);
    DeletesRun(s2, pid, taken, Exit(ExitDelete));
    TakenKeys(Take(own, MAX_DELETIONS));
    CountsRemove(s2.live, set k | k in taken);
    DropFirstMap(elems, pid, MAX_DELETIONS);
  }

  // ----- a flush of the whole map alone

  /** One element: next key, lookup, and a delete if it counts. */
  function FlushSteps(e: Elem): seq<Step> {
    [Agg(AggNext(e.key)), Agg(AggLookup)] + if e.count > 0 then [Agg(AggDelete)] else []
  }

  function FlushAllSteps(elems: seq<Elem>): seq<Step> {
    if elems == [] then [] else FlushAllSteps(elems[..|elems| - 1]) + FlushSteps(elems[|elems| - 1])
  }

  /** A flush of the whole map begun in `s` that is through with the elements of `seen`. */
  ghost predicate Flushing(s: State, s': State, seen: seq<Elem>) {
    && s'.flusher.AggScan?
    && Counts(s'.live) == Counts(s.live) - KeySet(Positive(seen))
    && s'.printed == s.printed + Positive(seen)
    && SameRest(s, s')
  }

  lemma FlushOne(s: State, s': State, seen: seq<Elem>, e: Elem)
    requires Flushing(s, s', seen) && e.key !in KeySet(Positive(seen))
    requires e.key in Counts(s.live) && Counts(s.live)[e.key] == e.count
    ensures Flushing(s, RunFrom(s', FlushSteps(e)), seen + [e])
  {
    assert e.key in Counts(s'.live) && Counts(s'.live)[e.key] == s'.live[e.key].count;
    PositiveSnoc(seen, e);
    RunFromTwo(s', [], Agg(AggNext(e.key)), Agg(AggLookup));
    assert [] + [Agg(AggNext(e.key)), Agg(AggLookup)] == [Agg(AggNext(e.key)), Agg(AggLookup)];
    if e.count > 0 {
      RunFromNext(s', [Agg(AggNext(e.key)), Agg(AggLookup)], Agg(AggDelete));
      KeySetSnoc(Positive(seen), e);
      MarkCounts(s'.live, e.key);
      CountsRemove(Mark(s'.live, e.key), {e.key});
      assert Counts(s.live) - KeySet(Positive(seen)) - {e.key} == Counts(s.live) - (KeySet(Positive(seen)) + {e.key});
      assert s.printed + Positive(seen) + [e] == s.printed + (Positive(seen) + [e]);
    } else {
      assert [Agg(AggNext(e.key)), Agg(AggLookup)] + [] == [Agg(AggNext(e.key)), Agg(AggLookup)];
      assert Positive(seen) + [] == Positive(seen);
    }
  }

  lemma {:induction false} FlushSome(s: State, elems: seq<Elem>, n: nat)
    requires s.flusher.Rest? && Represents(s.live, elems) && n <= |elems|
    ensures Flushing(s, RunFrom(s, [Agg(AggStart)] + FlushAllSteps(elems[..n])), elems[..n])
  {
    var start := [Agg(AggStart)];
    if n == 0 {
      assert start + [] == start && start[..0] == [];
      assert KeySet(Positive([])) == {} && Counts(s.live) - {} == Counts(s.live);
      assert s.printed + [] == s.printed;
    } else {
      var init, e := elems[..n - 1], elems[n - 1];
      FlushSome(s, elems, n - 1);
      assert elems[..n] == init + [e] && elems[..n][..n - 1] == init;
      AsMapHas(elems, n - 1);
      NotBefore(elems, n - 1);
      FlushOne(s, RunFrom(s, start + FlushAllSteps(init)), init, e);
      RunFromAppend(s, start + FlushAllSteps(init), FlushSteps(e));
      assert start + FlushAllSteps(elems[..n]) == start + FlushAllSteps(init) + FlushSteps(e);
    }
  }

  lemma {:induction false} PositiveWithin(s: seq<Elem>)
    ensures forall e :: e in Positive(s) ==> e in s && e.count > 0
  {
    if s != [] {
      PositiveWithin(s[1..]);
    }
  }

  lemma NotBefore(s: seq<Elem>, i: nat)
    requires DistinctKeys(s) && i < |s|
    ensures s[i].key !in KeySet(Positive(s[..i]))
  {
    PositiveWithin(s[..i]);
    KeySetWithin(Positive(s[..i]), s[..i]);
  }

  /** Alone, a flush of the whole map is the sequential one: it prints all elements that count, in order, with their
      counts, and leaves those that do not. */
  lemma FlushAlone(s: State, elems: seq<Elem>)
    requires s.flusher.Rest? && Represents(s.live, elems)
    ensures var s' := RunFrom(s, [Agg(AggStart)] + FlushAllSteps(elems) + [Agg(AggEnd)]);
      && s'.printed == s.printed + Positive(elems)
      && Counts(s'.live) == AsMap(Zeros(elems))
      && s'.flusher.Rest? && SameRest(s, s')
  {
    FlushSome(s, elems, |elems|);
    assert elems[..|elems|] == elems;
    RunFromNext(s, [Agg(AggStart)] + FlushAllSteps(elems), Agg(AggEnd));
    ZerosMap(elems);
  }

  // ----- an update alone

  ghost predicate DistinctCells(live: map<Key, Slot>) {
    forall j, k :: j in live && k in live && live[j].cell == live[k].cell ==> j == k
  }

  /** The step entered no new element. */
  ghost predicate SameCells(a: map<Key, Slot>, b: map<Key, Slot>) {
    forall k :: k in b ==> k in a && b[k].cell == a[k].cell
  }

  lemma SameCellsDistinct(a: map<Key, Slot>, b: map<Key, Slot>)
    requires DistinctCells(a) && SameCells(a, b)
    ensures DistinctCells(b)
  {
  }

  lemma FlusherKeepsCells(s: State, step: Step)
    requires !step.Cpu?
    ensures SameCells(s.live, Next(s, step).live)
  {
    match step {
      case Agg(_) =>
      case Exit(_) =>
      case Ovf(_) =>
    }
  }

  lemma InsertKeepsCells(s: State, cpu: nat, cell: nat)
    requires DistinctCells(s.live)
    ensures DistinctCells(CpuInsert(s, cpu, cell).live)
  {
    if CpuInsert(s, cpu, cell).live != s.live {
      assert forall k :: k in s.live ==> s.live[k].cell != cell;
    }
  }

  lemma StepKeepsCells(s: State, step: Step)
    requires DistinctCells(s.live)
    ensures DistinctCells(Next(s, step).live)
  {
    if !step.Cpu? {
      FlusherKeepsCells(s, step);
      SameCellsDistinct(s.live, Next(s, step).live);
    } else if step.cpuStep.Insert? {
      InsertKeepsCells(s, step.cpuStep.cpu, step.cpuStep.cell);
    } else {
      SameCellsDistinct(s.live, Next(s, step).live);
    }
  }

  /** In every run two elements never share a cell. */
  lemma {:induction false} CellsAreDistinct(ncpu: nat, steps: seq<Step>)
    ensures DistinctCells(Run(ncpu, steps).live)
  {
    if steps != [] {
      var init := steps[..|steps| - 1];
      CellsAreDistinct(ncpu, init);
      StepKeepsCells(Run(ncpu, init), steps[|steps| - 1]);
    }
  }

  /** The lookup, and what follows from it. */
  ghost function UpdateSteps(s: State, cpu: nat, key: Key, cell: nat): seq<Step> {
    [Cpu(Begin(cpu, key)), Cpu(if key in s.live then Add(cpu) else Insert(cpu, cell))]
  }

  /** One update more, counted for its key. */
  ghost predicate CountsOneMore(s: State, s': State, cpu: nat, key: Key) {
    && s'.events == s.events + 1 && s'.cpus == s.cpus && s'.printed == s.printed && s'.flusher == s.flusher
    && (if key in s.live || |s.live| < MAX_ENTRIES then
          Counts(s'.live) == Counts(s.live)[key := CountOf(s, key) + 1] && s'.overflow == s.overflow
        else
          cpu < |s.overflow| && s'.live == s.live && s'.overflow == s.overflow[cpu := s.overflow[cpu] + 1])
  }

  lemma BackToIdle(cpus: map<nat, Pending>, cpu: nat, p: Pending)
    requires cpu !in cpus
    ensures cpus[cpu := p] - {cpu} == cpus
  {
  }

  lemma FoundAlone(s: State, cpu: nat, key: Key)
    requires cpu < |s.overflow| && cpu !in s.cpus && key in s.live && DistinctCells(s.live)
    ensures CountsOneMore(s, CpuAdd(CpuBegin(s, cpu, key), cpu), cpu, key)
  {
    var found := Found(s.live[key].cell);
    BackToIdle(s.cpus, cpu, found);
    assert InUse(CpuBegin(s, cpu, key), s.live[key].cell) && KeyOf(CpuBegin(s, cpu, key), s.live[key].cell) == key;
  }

  lemma MissingAlone(s: State, cpu: nat, key: Key, cell: nat)
    requires cpu < |s.overflow| && cpu !in s.cpus && key !in s.live && !InUse(s, cell)
    ensures CountsOneMore(s, CpuInsert(CpuBegin(s, cpu, key), cpu, cell), cpu, key)
  {
    BackToIdle(s.cpus, cpu, Missing(key));
    assert !InUse(CpuBegin(s, cpu, key), cell);
  }

  /** An update that nothing interleaves with counts one more for its key, if the key is there or there is room, and
      one more overflow on its CPU otherwise. */
  lemma UpdateAlone(ncpu: nat, steps: seq<Step>, cpu: nat, key: Key, cell: nat)
    requires var s := Run(ncpu, steps); cpu < |s.overflow| && cpu !in s.cpus && !InUse(s, cell)
    ensures var s := Run(ncpu, steps); CountsOneMore(s, RunFrom(s, UpdateSteps(s, cpu, key, cell)), cpu, key)
  {
    var s := Run(ncpu, steps);
    var update := UpdateSteps(s, cpu, key, cell);
    RunFromTwo(s, [], update[0], update[1]);
    assert [] + update == update;
    CellsAreDistinct(ncpu, steps);
    if key in s.live {
      FoundAlone(s, cpu, key);
    } else {
      MissingAlone(s, cpu, key, cell);
    }
  }

  // ----- the overflow counters alone

  function OverflowSteps(n: nat, report: bool): seq<Step> {
    [Ovf(OvfStart)] + Times(Ovf(OvfReadCpu), n) + [Ovf(OvfReport)]
    + if report then Times(Ovf(OvfResetCpu), n + 1) else []
  }

  lemma ReadNext(s: State)
    requires s.flusher.OvfRead? && |s.flusher.counts| < |s.overflow| && s.flusher.counts == s.overflow[..|s.flusher.counts|]
    ensures Next(s, Ovf(OvfReadCpu)) == s.(flusher := OvfRead(s.overflow[..|s.flusher.counts| + 1]))
  {
    var i := |s.flusher.counts|;
    assert s.overflow[..i + 1] == s.overflow[..i] + [s.overflow[i]];
  }

  lemma {:induction false} ReadsAll(s: State, n: nat, step: Step)
    requires s.flusher.OvfRead? && |s.flusher.counts| + n == |s.overflow| && step == Ovf(OvfReadCpu)
    requires s.flusher.counts == s.overflow[..|s.flusher.counts|]
    ensures Repeat(s, step, n) == s.(flusher := OvfRead(s.overflow))
    decreases n
  {
    if n > 0 {
      ReadNext(s);
      ReadsAll(Next(s, step), n - 1, step);
    } else {
      assert s.flusher.counts == s.overflow;
    }
  }

  function Zeroed(overflow: seq<nat>): (r: seq<nat>)
    ensures |r| == |overflow| && forall i :: 0 <= i < |r| ==> r[i] == 0
  {
    seq(|overflow|, _ => 0)
  }

  lemma ZeroedWrite(overflow: seq<nat>, i: nat)
    requires i < |overflow|
    ensures Zeroed(overflow[i := 0]) == Zeroed(overflow)
  {
  }

  lemma {:induction false} ResetsAll(s: State, n: nat, step: Step)
    requires s.flusher.OvfReset? && s.flusher.next + n == |s.overflow| && step == Ovf(OvfResetCpu)
    requires forall i :: 0 <= i < s.flusher.next ==> s.overflow[i] == 0
    ensures Repeat(s, step, n + 1) == s.(overflow := Zeroed(s.overflow), flusher := Rest)
    decreases n
  {
    if n > 0 {
      ZeroedWrite(s.overflow, s.flusher.next);
      ResetsAll(Next(s, step), n - 1, step);
    } else {
      assert s.overflow == Zeroed(s.overflow);
    }
  }

  lemma {:induction false} SumZero(xs: seq<nat>)
    requires Sum(xs) == 0
    ensures xs == Zeroed(xs)
  {
    if xs != [] {
      SumZero(xs[1..]);
      assert xs == [xs[0]] + xs[1..];
    }
  }

  lemma ReadsAlone(s: State)
    requires s.flusher.Rest?
    ensures var n := |s.overflow|;
      RunFrom(s, [Ovf(OvfStart)] + Times(Ovf(OvfReadCpu), n)) == s.(flusher := OvfRead(s.overflow))
  {
    var n := |s.overflow|;
    RunFromCons(s, Ovf(OvfStart), Times(Ovf(OvfReadCpu), n));
    RepeatIsRun(Next(s, Ovf(OvfStart)), Ovf(OvfReadCpu), n);
    ReadsAll(Next(s, Ovf(OvfStart)), n, Ovf(OvfReadCpu));
  }

  lemma ReportAlone(s: State)
    requires s.flusher == OvfRead(s.overflow) && Sum(s.overflow) > 0
    ensures RunFrom(Next(s, Ovf(OvfReport)), Times(Ovf(OvfResetCpu), |s.overflow| + 1)) == Checked(s)
  {
    RepeatIsRun(Next(s, Ovf(OvfReport)), Ovf(OvfResetCpu), |s.overflow| + 1);
    ResetsAll(Next(s, Ovf(OvfReport)), |s.overflow|, Ovf(OvfResetCpu));
  }

  /** All overflow reported, and all counters at zero. */
  function Checked(s: State): State {
    s.(overflowPrinted := s.overflowPrinted + Sum(s.overflow), overflow := Zeroed(s.overflow), flusher := Rest)
  }

  /** Alone, an overflow check reports the sum of the counters and leaves them at zero. */
  lemma OverflowAlone(s: State)
    requires s.flusher.Rest?
    ensures RunFrom(s, OverflowSteps(|s.overflow|, Sum(s.overflow) > 0)) == Checked(s)
  {
    var n := |s.overflow|;
    var steps := [Ovf(OvfStart)] + Times(Ovf(OvfReadCpu), n);
    ReadsAlone(s);
    RunFromNext(s, steps, Ovf(OvfReport));
    if Sum(s.overflow) > 0 {
      RunFromAppend(s, steps + [Ovf(OvfReport)], Times(Ovf(OvfResetCpu), n + 1));
      ReportAlone(s.(flusher := OvfRead(s.overflow)));
    } else {
      SumZero(s.overflow);
      assert steps + [Ovf(OvfReport)] + [] == steps + [Ovf(OvfReport)];
    }
  }
}
