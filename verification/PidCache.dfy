/** The browser tracer's cache of "does this pid run the target executable?": 256 slots, linear probing,
    overwriting the home slot when every slot holds another pid. */
module PidCache {
  import opened Wrappers
  import opened Probing

  const CACHE_SIZE: nat := 256

  datatype CacheEntry = CacheEntry(pid: Pid, valid: bool, matched: bool)

  const ZERO_ENTRY := CacheEntry(0, false, false)

  /** The cache as the probing theory sees it. */
  function KeysOf(t: seq<CacheEntry>): (k: Table)
    ensures |k| == |t|
    ensures forall s :: 0 <= s < |t| ==> k[s] == if t[s].valid then Some(t[s].pid) else None
  {
    seq(|t|, s requires 0 <= s < |t| => if t[s].valid then Some(t[s].pid) else None)
  }

  function Lookup(t: seq<CacheEntry>, pid: Pid): Option<bool>
    requires |t| > 0
  {
    var r := Probe(KeysOf(t), pid);
    if r.Hit? then Some(t[r.slot].matched) else None
  }

  function StoreSlot(t: seq<CacheEntry>, pid: Pid): (s: nat)
    requires |t| > 0
    ensures s < |t|
  {
    var r := Probe(KeysOf(t), pid);
    if r.Exhausted? then Home(|t|, pid) else r.slot
  }

  function Store(t: seq<CacheEntry>, pid: Pid, matched: bool): seq<CacheEntry>
    requires |t| > 0
  {
    t[StoreSlot(t, pid) := CacheEntry(pid, true, matched)]
  }

  /** The map a cache stands for. */
  ghost predicate Represents(t: seq<CacheEntry>, m: map<Pid, bool>) {
    && Intact(KeysOf(t))
    && (forall s :: 0 <= s < |t| && t[s].valid ==> t[s].pid in m && m[t[s].pid] == t[s].matched)
    && (forall p :: p in m ==> Holds(KeysOf(t), p))
  }

  ghost predicate Full(t: seq<CacheEntry>) {
    forall s :: 0 <= s < |t| ==> t[s].valid
  }

  /** What a store does to the map: one key changes; the occupant of the home slot goes only when every slot
      is in use and none holds the pid. */
  ghost function StoreMap(t: seq<CacheEntry>, m: map<Pid, bool>, pid: Pid, matched: bool): map<Pid, bool>
    requires |t| > 0
  {
    (if Full(t) && pid !in m then m - {t[Home(|t|, pid)].pid} else m)[pid := matched]
  }

  // ----- lookup and store against the map

  lemma LookupIsMap(t: seq<CacheEntry>, m: map<Pid, bool>, pid: Pid)
    requires |t| > 0 && Represents(t, m)
    ensures Lookup(t, pid) == if pid in m then Some(m[pid]) else None
  {
    IntactDecides(KeysOf(t), pid);
  }

  /** The pid column of a cache after a store: intact, and with the pid written to one slot. */
  lemma StoreKeys(t: seq<CacheEntry>, pid: Pid, matched: bool)
    requires |t| > 0 && Intact(KeysOf(t))
    ensures var k, v := KeysOf(t), StoreSlot(t, pid);
      && KeysOf(Store(t, pid, matched)) == k[v := Some(pid)]
      && Intact(k[v := Some(pid)])
      && (k[v] == Some(pid) <==> Holds(k, pid))
      && (k[v] != Some(pid) ==> (k[v] == None <==> !Full(t)))
      && (k[v] != Some(pid) && k[v] != None ==> v == Home(|t|, pid))
  {
    var k, v := KeysOf(t), StoreSlot(t, pid);
    IntactDecides(k, pid);
    ProbePassed(k, pid);
    assert KeysOf(Store(t, pid, matched)) == k[v := Some(pid)];
    match Probe(k, pid) {
      case Hit(s) => assert k[v := Some(pid)] == k;
      case Gap(s) =>
        FillGapIntact(k, pid);
        assert !t[s].valid;
      case Exhausted =>
        OverwriteFullIntact(k, pid, v);
        forall s | 0 <= s < |t| ensures t[s].valid { assert k[s] != None; }
    }
  }

  lemma StoreIsMap(t: seq<CacheEntry>, m: map<Pid, bool>, pid: Pid, matched: bool)
    requires |t| > 0 && Represents(t, m)
    ensures Represents(Store(t, pid, matched), StoreMap(t, m, pid, matched))
  {
    var k, v := KeysOf(t), StoreSlot(t, pid);
    var t', m' := Store(t, pid, matched), StoreMap(t, m, pid, matched);
    StoreKeys(t, pid, matched);
    assert pid in m <==> Holds(k, pid);
    assert k[v].Some? ==> k[v].value == t[v].pid;
    forall p | p in m' ensures Holds(KeysOf(t'), p) {
      WriteHolds(k, pid, v, p);
    }
    forall s | 0 <= s < |t'| && t'[s].valid ensures t'[s].pid in m' && m'[t'[s].pid] == t'[s].matched {
      assert s == v || k[s] == Some(t[s].pid);
      assert s < v ==> k[s] != k[v];
      assert v < s && k[v].Some? ==> k[v] != k[s];
    }
  }

  // ----- size of the map: eviction happens only at 256 other pids

  /** The cache never stands for more than its size, and it is full exactly when the map has that many keys. */
  lemma FullIffSize(t: seq<CacheEntry>, m: map<Pid, bool>)
    requires Represents(t, m)
    ensures |m| <= |t|
    ensures Full(t) <==> |m| == |t|
  {
    var k := KeysOf(t);
    HeldSize(k, m.Keys);
    assert |m| == |m.Keys|;
    if forall s :: 0 <= s < |k| ==> k[s].Some? {
      forall s | 0 <= s < |t| ensures t[s].valid { assert k[s].Some?; }
    }
  }

  // ----- runs of stores

  datatype StoreOp = StoreOp(pid: Pid, matched: bool)

  function EmptyCache(): (t: seq<CacheEntry>)
    ensures |t| == CACHE_SIZE
  {
    seq(CACHE_SIZE, _ => ZERO_ENTRY)
  }

  function Run(ops: seq<StoreOp>): (t: seq<CacheEntry>)
    ensures |t| == CACHE_SIZE
  {
    if ops == [] then EmptyCache()
    else
      var last := ops[|ops| - 1];
      Store(Run(ops[..|ops| - 1]), last.pid, last.matched)
  }

  /** The verdict of the last store for `pid`, read off the history alone. */
  function LastStored(ops: seq<StoreOp>, pid: Pid): Option<bool> {
    if ops == [] then None
    else if ops[|ops| - 1].pid == pid then Some(ops[|ops| - 1].matched)
    else LastStored(ops[..|ops| - 1], pid)
  }

  function PidsOf(ops: seq<StoreOp>): set<Pid> {
    set op | op in ops :: op.pid
  }

  ghost predicate AgreesWithHistory(m: map<Pid, bool>, ops: seq<StoreOp>) {
    forall p :: p in m ==> LastStored(ops, p) == Some(m[p])
  }

  lemma HistoryStep(m0: map<Pid, bool>, m: map<Pid, bool>, init: seq<StoreOp>, last: StoreOp)
    requires AgreesWithHistory(m0, init)
    requires last.pid in m && m[last.pid] == last.matched
    requires forall p :: p in m && p != last.pid ==> p in m0 && m[p] == m0[p]
    ensures AgreesWithHistory(m, init + [last])
  {
    assert (init + [last])[..|init|] == init;
  }

  lemma PidsOfStep(init: seq<StoreOp>, last: StoreOp)
    ensures PidsOf(init + [last]) == PidsOf(init) + {last.pid}
  {
    var ops := init + [last];
    assert last in ops;
    forall p | p in PidsOf(init) ensures p in PidsOf(ops) {
      var op :| op in init && op.pid == p;
      assert op in ops;
    }
  }

  /** Which keys the map has after one more store, as long as the history fits the cache. */
  lemma KeysStep(t: seq<CacheEntry>, m: map<Pid, bool>, init: seq<StoreOp>, last: StoreOp)
    requires |t| == CACHE_SIZE && Represents(t, m)
    requires m.Keys <= PidsOf(init)
    requires |PidsOf(init)| <= CACHE_SIZE ==> m.Keys == PidsOf(init)
    ensures var m' := StoreMap(t, m, last.pid, last.matched);
      && m'.Keys <= PidsOf(init + [last])
      && (|PidsOf(init + [last])| <= CACHE_SIZE ==> m'.Keys == PidsOf(init + [last]))
  {
    PidsOfStep(init, last);
    GrowthStep(PidsOf(init), last.pid);
    FullIffSize(t, m);
    assert |m| == |m.Keys|;
  }

  lemma {:induction false} RunRepresents(ops: seq<StoreOp>) returns (m: map<Pid, bool>)
    ensures Represents(Run(ops), m)
    ensures AgreesWithHistory(m, ops)
    ensures m.Keys <= PidsOf(ops)
    ensures |PidsOf(ops)| <= CACHE_SIZE ==> m.Keys == PidsOf(ops)
  {
    if ops == [] {
      m := map[];
      assert Represents(EmptyCache(), m);
    } else {
      var init, last := ops[..|ops| - 1], ops[|ops| - 1];
      assert ops == init + [last];
      var m0 := RunRepresents(init);
      var t0 := Run(init);
      m := StoreMap(t0, m0, last.pid, last.matched);
      StoreIsMap(t0, m0, last.pid, last.matched);
      HistoryStep(m0, m, init, last);
      KeysStep(t0, m0, init, last);
    }
  }

  lemma GrowthStep(s: set<Pid>, p: Pid)
    ensures |s + {p}| == if p in s then |s| else |s| + 1
  {
    if p in s {
      assert s + {p} == s;
    }
  }

  /** After any run of stores the probe chains are whole, and a lookup answers with the last verdict stored for
      the pid or not at all. */
  lemma LookupIsLastStoreOrAbsent(ops: seq<StoreOp>, pid: Pid)
    ensures Intact(KeysOf(Run(ops)))
    ensures Lookup(Run(ops), pid) in {None, LastStored(ops, pid)}
  {
    var m := RunRepresents(ops);
    LookupIsMap(Run(ops), m, pid);
  }

  /** While no more than 256 different pids were stored, nothing was ever evicted. */
  lemma LookupIsLastStore(ops: seq<StoreOp>, pid: Pid)
    requires |PidsOf(ops)| <= CACHE_SIZE
    ensures Lookup(Run(ops), pid) == LastStored(ops, pid)
  {
    var m := RunRepresents(ops);
    LookupIsMap(Run(ops), m, pid);
    if pid !in m {
      NeverStored(ops, pid);
    }
  }

  lemma {:induction false} NeverStored(ops: seq<StoreOp>, pid: Pid)
    requires pid !in PidsOf(ops)
    ensures LastStored(ops, pid) == None
  {
    if ops != [] {
      var init := ops[..|ops| - 1];
      assert forall op :: op in init ==> op in ops;
      assert ops[|ops| - 1] in ops;
      NeverStored(init, pid);
    }
  }

  // ----- the memoised question

  datatype Target = Target(execPath: string, basename: string)

  /** The text after the last '/', or the whole path. */
  function Basename(path: string): string {
    if path == "" then "" else if path[|path| - 1] == '/' then "" else
      var b := Basename(path[..|path| - 1]);
      b + [path[|path| - 1]]
  }

  /** The uncached answer for an executable link that reads as `link` (`None` when readlink fails). */
  predicate Verdict(target: Target, link: Option<string>) {
    && link.Some?
    && ( || (target.execPath != "" && link.value == target.execPath)
         || (target.basename != "" && Basename(link.value) == target.basename))
  }

  /** The link ends in this name, as a whole component. */
  ghost predicate EndsIn(link: string, name: string) {
    '/' !in name && exists dir: string :: IsBefore(link, dir, name)
  }

  predicate IsBefore(link: string, dir: string, name: string) {
    link == dir + name && (dir == "" || dir[|dir| - 1] == '/')
  }

  lemma {:induction false} BasenameIs(path: string) returns (dir: string)
    ensures IsBefore(path, dir, Basename(path)) && '/' !in Basename(path)
  {
    if path == "" || path[|path| - 1] == '/' {
      dir := path;
      assert path + "" == path;
    } else {
      var init, c := path[..|path| - 1], path[|path| - 1];
      dir := BasenameIs(init);
      assert path == init + [c] == dir + (Basename(init) + [c]);
    }
  }

  /** The base name is the only name a path ends in. */
  lemma BasenameIsUnique(link: string, name: string)
    ensures EndsIn(link, name) <==> Basename(link) == name
  {
    var d' := BasenameIs(link);
    if EndsIn(link, name) {
      var d: string :| IsBefore(link, d, name);
      SameEnd(link, d, name, d', Basename(link));
    }
  }

  lemma SlashIsBefore(link: string, d: string, n: string, i: nat)
    requires link == d + n && '/' !in n && i < |link| && link[i] == '/'
    ensures i < |d|
  {
    assert forall j :: |d| <= j < |link| ==> link[j] in n;
  }

  lemma SameEnd(link: string, d: string, n: string, d': string, n': string)
    requires IsBefore(link, d, n) && IsBefore(link, d', n') && '/' !in n && '/' !in n'
    ensures n == n'
  {
    if d != "" {
      SlashIsBefore(link, d', n', |d| - 1);
    }
    if d' != "" {
      SlashIsBefore(link, d, n, |d'| - 1);
    }
    assert n == link[|d|..] && n' == link[|d'|..];
  }

  /** A process matches exactly when its link can be read and is the path asked for, or ends in the name asked for. */
  lemma VerdictIff(target: Target, link: Option<string>)
    ensures Verdict(target, link) <==>
      link.Some?
      && ((target.execPath != "" && link.value == target.execPath)
          || (target.basename != "" && EndsIn(link.value, target.basename)))
  {
    if link.Some? {
      BasenameIsUnique(link.value, target.basename);
    }
  }

  function Question(t: seq<CacheEntry>, target: Target, pid: Pid, link: Option<string>): (seq<CacheEntry>, bool)
    requires |t| > 0
  {
    if target.execPath == "" && target.basename == "" then (t, true)
    else match Lookup(t, pid)
      case Some(b) => (t, b)
      case None => (Store(t, pid, Verdict(target, link)), Verdict(target, link))
  }

  /** A question about a pid, and what reading the pid's executable link would return at that moment. */
  datatype Asked = Asked(pid: Pid, link: Option<string>)

  function CacheAfter(target: Target, asked: seq<Asked>): (t: seq<CacheEntry>)
    ensures |t| == CACHE_SIZE
  {
    if asked == [] then EmptyCache()
    else
      var last := asked[|asked| - 1];
      Question(CacheAfter(target, asked[..|asked| - 1]), target, last.pid, last.link).0
  }

  predicate AnswerAt(target: Target, asked: seq<Asked>, i: nat)
    requires i < |asked|
  {
    Question(CacheAfter(target, asked[..i]), target, asked[i].pid, asked[i].link).1
  }

  /** A question about `pid` reads the link and stores its verdict. */
  predicate Misses(target: Target, t: seq<CacheEntry>, pid: Pid)
    requires |t| > 0
  {
    target != Target("", "") && Lookup(t, pid).None?
  }

  predicate ReadsAt(target: Target, asked: seq<Asked>, i: nat)
    requires i < |asked|
  {
    Misses(target, CacheAfter(target, asked[..i]), asked[i].pid)
  }

  /** Of the first `n` questions, `j` is the last that read a link for `pid`. */
  ghost predicate LastReader(target: Target, asked: seq<Asked>, pid: Pid, n: nat, j: nat)
    requires n <= |asked|
  {
    && j < n && asked[j].pid == pid && ReadsAt(target, asked, j)
    && forall k {:trigger ReadsAt(target, asked, k)} :: j < k < n && asked[k].pid == pid ==> !ReadsAt(target, asked, k)
  }

  function StoreBy(target: Target, q: Asked): StoreOp {
    StoreOp(q.pid, Verdict(target, q.link))
  }

  /** What one question stores. */
  function StoredBy(target: Target, t: seq<CacheEntry>, q: Asked): seq<StoreOp>
    requires |t| > 0
  {
    if Misses(target, t, q.pid) then [StoreBy(target, q)] else []
  }

  function StoresOf(target: Target, asked: seq<Asked>): seq<StoreOp> {
    if asked == [] then []
    else
      var init := asked[..|asked| - 1];
      StoresOf(target, init) + StoredBy(target, CacheAfter(target, init), asked[|asked| - 1])
  }

  lemma StoresNext(ops: seq<StoreOp>, op: StoreOp, p: Pid)
    ensures Run(ops + [op]) == Store(Run(ops), op.pid, op.matched)
    ensures LastStored(ops + [op], p) == if p == op.pid then Some(op.matched) else LastStored(ops, p)
  {
    assert (ops + [op])[..|ops|] == ops;
  }

  lemma QuestionIsRun(target: Target, ops: seq<StoreOp>, q: Asked, p: Pid)
    ensures var more := StoredBy(target, Run(ops), q);
      && Question(Run(ops), target, q.pid, q.link).0 == Run(ops + more)
      && LastStored(ops + more, p) ==
           if Misses(target, Run(ops), q.pid) && p == q.pid then Some(StoreBy(target, q).matched) else LastStored(ops, p)
  {
    if Misses(target, Run(ops), q.pid) {
      StoresNext(ops, StoreBy(target, q), p);
    } else {
      assert ops + [] == ops;
    }
  }

  lemma {:induction false} CacheIsRun(target: Target, asked: seq<Asked>)
    ensures CacheAfter(target, asked) == Run(StoresOf(target, asked))
  {
    if asked != [] {
      var init, last := asked[..|asked| - 1], asked[|asked| - 1];
      CacheIsRun(target, init);
      QuestionIsRun(target, StoresOf(target, init), last, last.pid);
    }
  }

  /** What the last question leaves stored for a pid. */
  lemma LastStoredNext(target: Target, asked: seq<Asked>, p: Pid)
    requires asked != []
    ensures var i := |asked| - 1;
      LastStored(StoresOf(target, asked), p) ==
        if ReadsAt(target, asked, i) && asked[i].pid == p then Some(StoreBy(target, asked[i]).matched)
        else LastStored(StoresOf(target, asked[..i]), p)
  {
    var i := |asked| - 1;
    CacheIsRun(target, asked[..i]);
    QuestionIsRun(target, StoresOf(target, asked[..i]), asked[i], p);
  }

  lemma LastStoredAt(target: Target, asked: seq<Asked>, n: nat, p: Pid)
    requires n < |asked|
    ensures LastStored(StoresOf(target, asked[..n + 1]), p) ==
      if ReadsAt(target, asked, n) && asked[n].pid == p then Some(StoreBy(target, asked[n]).matched)
      else LastStored(StoresOf(target, asked[..n]), p)
  {
    assert asked[..n + 1][..n] == asked[..n];
    LastStoredNext(target, asked[..n + 1], p);
  }

  lemma LastReaderLasts(target: Target, asked: seq<Asked>, pid: Pid, n: nat, j: nat)
    requires n < |asked| && LastReader(target, asked, pid, n, j)
    requires !(ReadsAt(target, asked, n) && asked[n].pid == pid)
    ensures LastReader(target, asked, pid, n + 1, j)
  {
  }

  /** What was stored last for a pid is the verdict on the link that was read last for it. */
  lemma {:induction false} LastStoredIsLastRead(target: Target, asked: seq<Asked>, n: nat, pid: Pid) returns (j: nat)
    requires n <= |asked| && LastStored(StoresOf(target, asked[..n]), pid).Some?
    ensures LastReader(target, asked, pid, n, j)
    ensures LastStored(StoresOf(target, asked[..n]), pid) == Some(Verdict(target, asked[j].link))
  {
    var i := n - 1;
    LastStoredAt(target, asked, i, pid);
    if ReadsAt(target, asked, i) && asked[i].pid == pid {
      j := i;
    } else {
      j := LastStoredIsLastRead(target, asked, i, pid);
      LastReaderLasts(target, asked, pid, i, j);
    }
  }

  /** A question that reads no link answers what was stored last for its pid. */
  lemma AnswerWasStored(target: Target, asked: seq<Asked>, i: nat)
    requires i < |asked| && target != Target("", "") && !ReadsAt(target, asked, i)
    ensures LastStored(StoresOf(target, asked[..i]), asked[i].pid) == Some(AnswerAt(target, asked, i))
  {
    CacheIsRun(target, asked[..i]);
    LookupIsLastStoreOrAbsent(StoresOf(target, asked[..i]), asked[i].pid);
  }

  /** For every run of questions, whatever becomes of the executables meanwhile: each answer is the verdict on the link
      that was read last for the pid, at this question or at the earlier one that stored it. */
  lemma AnswersAreReadings(target: Target, asked: seq<Asked>, i: nat) returns (j: nat)
    requires i < |asked| && target != Target("", "")
    ensures LastReader(target, asked, asked[i].pid, i + 1, j)
    ensures AnswerAt(target, asked, i) <==> Verdict(target, asked[j].link)
  {
    var pid := asked[i].pid;
    if ReadsAt(target, asked, i) {
      j := i;
    } else {
      AnswerWasStored(target, asked, i);
      j := LastStoredIsLastRead(target, asked, i, pid);
      LastReaderLasts(target, asked, pid, i, j);
    }
  }

  ghost predicate IsStored(target: Target, asked: seq<Asked>, p: Pid) {
    LastStored(StoresOf(target, asked), p).Some?
  }

  lemma LastIsStored(target: Target, asked: seq<Asked>)
    requires asked != [] && target != Target("", "")
    ensures IsStored(target, asked, asked[|asked| - 1].pid)
  {
    var i := |asked| - 1;
    LastStoredNext(target, asked, asked[i].pid);
    if !ReadsAt(target, asked, i) {
      AnswerWasStored(target, asked, i);
    }
  }

  lemma StoredLasts(target: Target, asked: seq<Asked>, p: Pid)
    requires asked != [] && IsStored(target, asked[..|asked| - 1], p)
    ensures IsStored(target, asked, p)
  {
    LastStoredNext(target, asked, p);
  }

  /** A pid once asked about was stored, at that question or before. */
  lemma {:induction false} AskedIsStored(target: Target, asked: seq<Asked>, k: nat)
    requires k < |asked| && target != Target("", "")
    ensures IsStored(target, asked, asked[k].pid)
  {
    if k == |asked| - 1 {
      LastIsStored(target, asked);
    } else {
      AskedIsStored(target, asked[..|asked| - 1], k);
      StoredLasts(target, asked, asked[k].pid);
    }
  }

  function AskedPids(asked: seq<Asked>): set<Pid> {
    set q | q in asked :: q.pid
  }

  lemma {:induction false} StoredPidsAreAsked(target: Target, asked: seq<Asked>, p: Pid)
    requires p in PidsOf(StoresOf(target, asked))
    ensures p in AskedPids(asked)
  {
    var i := |asked| - 1;
    assert asked[i] in asked;
    if p != asked[i].pid {
      StoredPidsAreAsked(target, asked[..i], p);
      var q :| q in asked[..i] && q.pid == p;
      assert q in asked;
    }
  }

  lemma SubsetSize(a: set<Pid>, b: set<Pid>)
    requires a <= b
    ensures |a| <= |b|
  {
    if a != {} {
      var x :| x in a;
      SubsetSize(a - {x}, b - {x});
    }
  }

  /** While no more than 256 different pids were asked about, every answer is the verdict at the first question about
      the pid: only that one reads a link. */
  lemma FirstReadingLasts(target: Target, asked: seq<Asked>, i: nat, first: nat)
    requires i < |asked| && target != Target("", "") && |AskedPids(asked[..i])| <= CACHE_SIZE
    requires first <= i && asked[first].pid == asked[i].pid
    requires forall k :: 0 <= k < first ==> asked[k].pid != asked[i].pid
    ensures AnswerAt(target, asked, i) <==> Verdict(target, asked[first].link)
  {
    var j := AnswersAreReadings(target, asked, i);
    if first < j {
      var ops := StoresOf(target, asked[..j]);
      FewStored(target, asked, i, j);
      LookupIsLastStore(ops, asked[i].pid);
      CacheIsRun(target, asked[..j]);
      AskedIsStored(target, asked[..j], first);
      assert false;
    }
  }

  lemma FewStored(target: Target, asked: seq<Asked>, i: nat, j: nat)
    requires j <= i <= |asked| && |AskedPids(asked[..i])| <= CACHE_SIZE
    ensures |PidsOf(StoresOf(target, asked[..j]))| <= CACHE_SIZE
  {
    forall p | p in PidsOf(StoresOf(target, asked[..j])) ensures p in AskedPids(asked[..i]) {
      StoredPidsAreAsked(target, asked[..j], p);
      var q :| q in asked[..j] && q.pid == p;
      assert q in asked[..i];
    }
    SubsetSize(PidsOf(StoresOf(target, asked[..j])), AskedPids(asked[..i]));
  }

  /** While no process changes its executable, the cache is invisible: every answer of every run is the one an
      uncached check would give, evictions included. */
  lemma CacheIsTransparent(target: Target, exe: Pid -> Option<string>, asked: seq<Asked>, i: nat)
    requires i < |asked| && forall k :: 0 <= k < |asked| ==> asked[k].link == exe(asked[k].pid)
    ensures AnswerAt(target, asked, i) <==> target == Target("", "") || Verdict(target, exe(asked[i].pid))
  {
    if target != Target("", "") {
      var j := AnswersAreReadings(target, asked, i);
    }
  }

  // ----- the table itself

  /** One step of a probe for `pid`. */
  lemma ProbeStep(t: seq<CacheEntry>, pid: Pid, i: nat)
    requires |t| == CACHE_SIZE && i < CACHE_SIZE
    ensures var s := (Unsigned(pid) % CACHE_SIZE + i) % CACHE_SIZE;
      ProbeFrom(KeysOf(t), pid, i) ==
        if !t[s].valid then Gap(s) else if t[s].pid == pid then Hit(s) else ProbeFrom(KeysOf(t), pid, i + 1)
  {
    var s := At(CACHE_SIZE, Home(CACHE_SIZE, pid), i);
  }

  class TargetPidCache {
    const table: array<CacheEntry>
    ghost var verdicts: map<Pid, bool>

    ghost predicate Valid()
      reads this, table
    {
      table.Length == CACHE_SIZE && Represents(table[..], verdicts)
    }

    constructor ()
      ensures Valid() && fresh(table)
      ensures table[..] == EmptyCache() && verdicts == map[]
    {
      table := new CacheEntry[CACHE_SIZE](_ => ZERO_ENTRY);
      verdicts := map[];
      new;
      assert table[..] == EmptyCache();
    }

    method LookupTargetPidCache(pid: Pid) returns (found: bool, matched: bool)
      requires Valid()
      ensures found <==> pid in verdicts
      ensures found ==> matched == verdicts[pid]
      ensures Lookup(table[..], pid) == if found then Some(matched) else None
    {
      LookupIsMap(table[..], verdicts, pid);
      found, matched := FindVerdict(pid);
    }

    method FindVerdict(pid: Pid) returns (found: bool, matched: bool)
      requires table.Length == CACHE_SIZE
      ensures Lookup(table[..], pid) == if found then Some(matched) else None
    {
      found, matched := false, false;
      var start := Unsigned(pid) % CACHE_SIZE;
      ghost var k := KeysOf(table[..]);
      var i := 0;
      while i < CACHE_SIZE
        invariant i <= CACHE_SIZE
        invariant Probe(k, pid) == ProbeFrom(k, pid, i)
        invariant !found && !matched
      {
        ProbeStep(table[..], pid, i);
        var entry := table[(start + i) % CACHE_SIZE];
        if !entry.valid {
          return;
        }
        if entry.pid == pid {
          return true, entry.matched;
        }
        i := i + 1;
      }
    }

    method StoreTargetPidCache(pid: Pid, matched: bool)
      requires Valid()
      modifies this, table
      ensures Valid()
      ensures table[..] == Store(old(table[..]), pid, matched)
      ensures verdicts == StoreMap(old(table[..]), old(verdicts), pid, matched)
    {
      StoreIsMap(table[..], verdicts, pid, matched);
      verdicts := StoreMap(table[..], verdicts, pid, matched);
      WriteVerdict(pid, matched);
    }

    method WriteVerdict(pid: Pid, matched: bool)
      requires table.Length == CACHE_SIZE
      modifies table
      ensures table[..] == Store(old(table[..]), pid, matched)
    {
      var start := Unsigned(pid) % CACHE_SIZE;
      ghost var t := table[..];
      ghost var k := KeysOf(t);
      var i := 0;
      while i < CACHE_SIZE
        invariant i <= CACHE_SIZE
        invariant Probe(k, pid) == ProbeFrom(k, pid, i)
        invariant table[..] == t
      {
        var s := (start + i) % CACHE_SIZE;
        ProbeStep(t, pid, i);
        if !(table[s].valid && table[s].pid != pid) {
          table[s] := CacheEntry(pid, true, matched);
          assert table[..] == Store(t, pid, matched);
          return;
        }
        i := i + 1;
      }
      table[start] := CacheEntry(pid, true, matched);
      assert table[..] == Store(t, pid, matched);
    }

    /** `link` is what reading the pid's executable link would return now. */
    method TargetProcessMatches(target: Target, pid: Pid, link: Option<string>) returns (matched: bool)
      requires Valid()
      modifies this, table
      ensures Valid()
      ensures (table[..], matched) == Question(old(table[..]), target, pid, link)
    {
      if target.execPath == "" && target.basename == "" {
        return true;
      }
      var found;
      found, matched := LookupTargetPidCache(pid);
      if found {
        return;
      }
      if link == None {
        StoreTargetPidCache(pid, false);
        return false;
      }
      matched := false;
      if target.execPath != "" && link.value == target.execPath {
        matched := true;
      } else if target.basename != "" && Basename(link.value) == target.basename {
        matched := true;
      }
      StoreTargetPidCache(pid, matched);
    }
  }
}
