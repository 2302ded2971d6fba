/** The per-second file-open limiter of the process loader: 256 slots, one per pid, each counting the opens of
    the second it last saw. */
module FileLimiter {
  import opened Wrappers
  import opened Probing
  import opened Words

  const NS_PER_SECOND: U64 := 1_000_000_000
  const MAX_PID_LIMITS: nat := 256
  const MAX_DISTINCT_FILES_PER_SEC: nat := 30

  /** `x++` on a 32-bit unsigned counter. */
  function Bump(x: U32): U32 {
    if x == U32_MAX then 0 else x + 1
  }

  datatype Limit = Limit(pid: Pid, second: nat, count: U32, warn: bool)

  const ZERO_LIMIT := Limit(0, 0, 0, false)

  function LimitSlot(limits: seq<Limit>, pid: Pid): (r: Option<nat>)
    ensures r.Some? ==> r.value < |limits| && limits[r.value].pid == pid
    ensures r.Some? ==> forall i :: 0 <= i < r.value ==> limits[i].pid != pid
    ensures r.None? ==> forall i :: 0 <= i < |limits| ==> limits[i].pid != pid
  {
    if limits == [] then None
    else if limits[0].pid == pid then Some(0)
    else match LimitSlot(limits[1..], pid)
      case None => None
      case Some(i) => Some(i + 1)
  }

  datatype Limited = Limited(limits: seq<Limit>, drop: bool, warning: bool)

  function Charge(l: Limit, second: nat): (Limit, bool, bool) {
    var l1 := if l.second != second then Limit(l.pid, second, 0, false) else l;
    var count := Bump(l1.count);
    var over := count > MAX_DISTINCT_FILES_PER_SEC;
    (Limit(l.pid, second, count, l1.warn || over), over, l.second != second && l.warn)
  }

  function RateLimit(limits: seq<Limit>, pid: Pid, second: nat): (r: Limited)
    ensures r.warning ==> !r.drop
  {
    match LimitSlot(limits, pid)
    case Some(i) =>
      var (l, over, warning) := Charge(limits[i], second);
      Limited(limits[i := l], over, warning)
    case None =>
      if |limits| < MAX_PID_LIMITS then
        var (l, over, warning) := Charge(Limit(pid, second, 0, false), second);
        Limited(limits + [l], over, warning)
      else Limited(limits, false, false)
  }

  /** The slot of `pid` on which a warning is pending. */
  function WarnSlot(limits: seq<Limit>, pid: Pid): (r: Option<nat>)
    ensures r.Some? ==> r.value < |limits| && limits[r.value].pid == pid && limits[r.value].warn
    ensures r.Some? ==> forall i :: 0 <= i < r.value ==> !(limits[i].pid == pid && limits[i].warn)
    ensures r.None? ==> forall i :: 0 <= i < |limits| ==> !(limits[i].pid == pid && limits[i].warn)
  {
    if limits == [] then None
    else if limits[0].pid == pid && limits[0].warn then Some(0)
    else match WarnSlot(limits[1..], pid)
      case None => None
      case Some(i) => Some(i + 1)
  }

  /** The exit handler frees a limiter slot only when a warning is pending on it. */
  function ExitLimit(limits: seq<Limit>, pid: Pid): (seq<Limit>, bool) {
    match WarnSlot(limits, pid)
    case Some(i) => (SwapRemove(limits, i), true)
    case None => (limits, false)
  }

  function SwapRemove<T>(s: seq<T>, i: nat): (r: seq<T>)
    requires i < |s|
    ensures |r| == |s| - 1
  {
    s[i := s[|s| - 1]][..|s| - 1]
  }

  lemma SplitLast<T>(s: seq<T>)
    requires s != []
    ensures s == s[..|s| - 1] + [s[|s| - 1]]
  {
  }

  lemma SwapRemoveTakesOne<T>(s: seq<T>, i: nat)
    requires i < |s|
    ensures multiset(SwapRemove(s, i)) + multiset{s[i]} == multiset(s)
  {
    var last := |s| - 1;
    var r := SwapRemove(s, i);
    assert s == s[..last] + [s[last]];
    if i < last {
      assert s[..last] == s[..i] + [s[i]] + s[i + 1..last];
      assert r == s[..i] + [s[last]] + s[i + 1..last];
    } else {
      assert r == s[..last];
    }
  }

  /** How many of the last seconds of a history are the same. */
  function TrailingRun(h: seq<nat>): (r: nat)
    ensures r <= |h|
    ensures h != [] ==> r > 0
  {
    if h == [] then 0
    else if |h| > 1 && h[|h| - 2] == h[|h| - 1] then 1 + TrailingRun(h[..|h| - 1])
    else 1
  }

  /** The limiter as a history of seconds per pid that owns a slot. */
  type Histories = map<Pid, seq<nat>>

  ghost predicate HasSlot(limits: seq<Limit>, p: Pid) {
    exists i :: 0 <= i < |limits| && limits[i].pid == p
  }

  ghost predicate DistinctPids(limits: seq<Limit>) {
    forall i, j :: 0 <= i < j < |limits| ==> limits[i].pid != limits[j].pid
  }

  ghost predicate LimitMeans(l: Limit, h: seq<nat>) {
    && h != []
    && l.second == h[|h| - 1]
    && l.count == TrailingRun(h) % 0x1_0000_0000
    && (l.warn <==> TrailingRun(h) > MAX_DISTINCT_FILES_PER_SEC)
  }

  ghost predicate LimitsRepresent(limits: seq<Limit>, h: Histories) {
    && |h| == |limits| <= MAX_PID_LIMITS
    && DistinctPids(limits)
    && (forall i :: 0 <= i < |limits| ==> limits[i].pid in h && LimitMeans(limits[i], h[limits[i].pid]))
    && (forall p :: p in h ==> HasSlot(limits, p))
  }

  ghost function AskHistory(h: Histories, pid: Pid, second: nat): Histories {
    if pid in h then h[pid := h[pid] + [second]]
    else if |h| < MAX_PID_LIMITS then h[pid := [second]]
    else h
  }

  ghost function ExitHistory(h: Histories, pid: Pid): Histories {
    if Overfull(h, pid) then h - {pid} else h
  }

  /** The pid's last second had too many opens. */
  ghost predicate Overfull(h: Histories, pid: Pid) {
    pid in h && TrailingRun(h[pid]) > MAX_DISTINCT_FILES_PER_SEC
  }

  /** The same as a 32-bit counter sees it. */
  ghost predicate OverLimit(h: Histories, pid: Pid) {
    pid in h && TrailingRun(h[pid]) % 0x1_0000_0000 > MAX_DISTINCT_FILES_PER_SEC
  }

  ghost predicate NewSecond(h: Histories, pid: Pid, second: nat) {
    pid in h && h[pid] != [] && h[pid][|h[pid]| - 1] != second
  }

  lemma TrailingRunStep(h: seq<nat>, second: nat)
    ensures TrailingRun(h + [second]) == if h != [] && h[|h| - 1] == second then TrailingRun(h) + 1 else 1
  {
    var h' := h + [second];
    assert h'[..|h|] == h;
  }

  lemma BumpIsModulo(n: nat)
    ensures Bump(n % 0x1_0000_0000) == (n + 1) % 0x1_0000_0000
  {
  }

  lemma ChargeMeans(l: Limit, h: seq<nat>, second: nat)
    requires LimitMeans(l, h)
    ensures var (l', over, warning) := Charge(l, second);
      && l'.pid == l.pid && LimitMeans(l', h + [second])
      && (over <==> TrailingRun(h + [second]) % 0x1_0000_0000 > MAX_DISTINCT_FILES_PER_SEC)
      && (warning <==> h[|h| - 1] != second && TrailingRun(h) > MAX_DISTINCT_FILES_PER_SEC)
  {
    TrailingRunStep(h, second);
    var n := TrailingRun(h);
    if l.second == second {
      assert TrailingRun(h + [second]) == n + 1;
      BumpIsModulo(n);
      WarnIsOverfull(n + 1, l.warn);
    } else {
      assert TrailingRun(h + [second]) == 1;
    }
  }

  /** Once set, the warning flag outlives a wrap of the counter. */
  lemma WarnIsOverfull(n: nat, warned: bool)
    requires n > 0 && (warned <==> n - 1 > MAX_DISTINCT_FILES_PER_SEC)
    ensures warned || n % 0x1_0000_0000 > MAX_DISTINCT_FILES_PER_SEC <==> n > MAX_DISTINCT_FILES_PER_SEC
  {
    assert n <= MAX_DISTINCT_FILES_PER_SEC + 1 ==> n % 0x1_0000_0000 == n;
  }

  lemma UpdateRepresents(limits: seq<Limit>, h: Histories, i: nat, l: Limit, hist: seq<nat>)
    requires LimitsRepresent(limits, h) && i < |limits| && l.pid == limits[i].pid && LimitMeans(l, hist)
    ensures LimitsRepresent(limits[i := l], h[l.pid := hist])
  {
    var limits', h' := limits[i := l], h[l.pid := hist];
    assert h'.Keys == h.Keys;
    assert |h'| == |h'.Keys| && |h| == |h.Keys|;
    forall p | p in h' ensures HasSlot(limits', p) {
      UpdateKeepsSlot(limits, i, l, p);
    }
  }

  lemma UpdateKeepsSlot(limits: seq<Limit>, i: nat, l: Limit, p: Pid)
    requires i < |limits| && l.pid == limits[i].pid && HasSlot(limits, p)
    ensures HasSlot(limits[i := l], p)
  {
    var j :| 0 <= j < |limits| && limits[j].pid == p;
    assert limits[i := l][j].pid == p;
  }

  lemma AppendRepresents(limits: seq<Limit>, h: Histories, l: Limit, hist: seq<nat>)
    requires LimitsRepresent(limits, h) && l.pid !in h && |h| < MAX_PID_LIMITS && LimitMeans(l, hist)
    ensures LimitsRepresent(limits + [l], h[l.pid := hist])
  {
    var limits', h' := limits + [l], h[l.pid := hist];
    forall p | p in h' ensures HasSlot(limits', p) {
      if p == l.pid {
        assert limits'[|limits|].pid == p;
      } else {
        assert HasSlot(limits, p);
        var j :| 0 <= j < |limits| && limits[j].pid == p;
        assert limits'[j].pid == p;
      }
    }
  }

  lemma RemoveRepresents(limits: seq<Limit>, h: Histories, i: nat)
    requires LimitsRepresent(limits, h) && i < |limits|
    ensures LimitsRepresent(SwapRemove(limits, i), h - {limits[i].pid})
  {
    var limits', gone := SwapRemove(limits, i), limits[i].pid;
    var h' := h - {gone};
    assert |h'| == |h| - 1 by {
      assert h'.Keys == h.Keys - {gone};
      assert |h'| == |h'.Keys| && |h| == |h.Keys|;
    }
    forall j | 0 <= j < |limits'|
      ensures limits'[j].pid in h' && LimitMeans(limits'[j], h'[limits'[j].pid])
    {
      var from := if j == i then |limits| - 1 else j;
      assert limits'[j] == limits[from] && limits[from].pid != gone;
    }
    forall p | p in h' ensures HasSlot(limits', p) {
      RemoveKeepsSlot(limits, i, p);
    }
  }

  lemma RemoveKeepsSlot(limits: seq<Limit>, i: nat, p: Pid)
    requires i < |limits| && HasSlot(limits, p) && p != limits[i].pid
    ensures HasSlot(SwapRemove(limits, i), p)
  {
    var j :| 0 <= j < |limits| && limits[j].pid == p;
    assert SwapRemove(limits, i)[if j == |limits| - 1 then i else j].pid == p;
  }

  lemma ChargeDecides(l: Limit, h: Histories, second: nat)
    requires l.pid in h && LimitMeans(l, h[l.pid])
    ensures var (l', over, warning) := Charge(l, second); var h' := AskHistory(h, l.pid, second);
      && l'.pid == l.pid && LimitMeans(l', h[l.pid] + [second])
      && (over <==> OverLimit(h', l.pid))
      && (warning <==> NewSecond(h, l.pid, second) && Overfull(h, l.pid))
  {
    ChargeMeans(l, h[l.pid], second);
  }

  /** The slot a pid has is charged as its history is extended. */
  lemma SlotIsCharged(limits: seq<Limit>, h: Histories, i: nat, second: nat)
    requires LimitsRepresent(limits, h) && i < |limits|
    ensures limits[i].pid in h && LimitMeans(limits[i], h[limits[i].pid])
    ensures LimitsRepresent(limits[i := Charge(limits[i], second).0], AskHistory(h, limits[i].pid, second))
  {
    var pid := limits[i].pid;
    ChargeDecides(limits[i], h, second);
    UpdateRepresents(limits, h, i, Charge(limits[i], second).0, h[pid] + [second]);
  }

  lemma FirstIsCharged(pid: Pid, second: nat)
    ensures var (l, over, warning) := Charge(Limit(pid, second, 0, false), second);
      l.pid == pid && !over && !warning && LimitMeans(l, [second]) && TrailingRun([second]) == 1
  {
  }

  /** A pid without a slot gets one while there is room; its first open passes. */
  lemma NewSlotIsCharged(limits: seq<Limit>, h: Histories, pid: Pid, second: nat)
    requires LimitsRepresent(limits, h) && LimitSlot(limits, pid).None?
    ensures pid !in h
    ensures var r, h' := RateLimit(limits, pid, second), AskHistory(h, pid, second);
      LimitsRepresent(r.limits, h') && !r.drop && !r.warning && !OverLimit(h', pid)
  {
    assert !HasSlot(limits, pid);
    FirstIsCharged(pid, second);
    if |limits| < MAX_PID_LIMITS {
      AppendRepresents(limits, h, Charge(Limit(pid, second, 0, false), second).0, [second]);
    }
  }

  /** An open is dropped exactly when its pid owns a slot and its second has, counted modulo 2^32, already had 30
      opens in a row; a warning is due exactly at the first open after such a second. */
  lemma LimiterCountsRuns(limits: seq<Limit>, h: Histories, pid: Pid, second: nat)
    requires LimitsRepresent(limits, h)
    ensures var r, h' := RateLimit(limits, pid, second), AskHistory(h, pid, second);
      && LimitsRepresent(r.limits, h')
      && (r.drop <==> OverLimit(h', pid))
      && (r.warning <==> NewSecond(h, pid, second) && Overfull(h, pid))
  {
    match LimitSlot(limits, pid) {
      case Some(i) =>
        SlotIsCharged(limits, h, i, second);
        ChargeDecides(limits[i], h, second);
      case None => NewSlotIsCharged(limits, h, pid, second);
    }
  }

  lemma ExitFreesOverfull(limits: seq<Limit>, h: Histories, pid: Pid)
    requires LimitsRepresent(limits, h)
    ensures var (limits', warning) := ExitLimit(limits, pid);
      && LimitsRepresent(limits', ExitHistory(h, pid))
      && (warning <==> Overfull(h, pid))
  {
    match WarnSlot(limits, pid) {
      case None =>
        if pid in h {
          assert HasSlot(limits, pid);
          var j :| 0 <= j < |limits| && limits[j].pid == pid;
          assert LimitMeans(limits[j], h[pid]);
        }
      case Some(i) =>
        RemoveRepresents(limits, h, i);
    }
  }
}
