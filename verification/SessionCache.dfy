/** The cache of parsed agent sessions, keyed by path and modification time. */
module SessionCache {
  import opened Wrappers

  type Path = string
  type Time = nat

  datatype Candidate = Candidate(path: Path, updated: Time)

  datatype Session = Session(displayId: string, body: string)

  /** What parsing gives, which is taken to depend on the path and the modification time alone. */
  type Parse = Candidate -> Option<Session>

  function Clamp(x: nat, lo: nat, hi: nat): nat
    requires lo <= hi
  {
    if x < lo then lo else if x > hi then hi else x
  }

  function TargetOf(limit: nat): (r: nat)
    ensures 1 <= r <= 25 && (1 <= limit <= 25 ==> r == limit) && (limit > 25 ==> r == 25)
  {
    Clamp(limit, 1, 25)
  }

  /** How many of the newest candidates are looked at. */
  function Window(target: nat): nat {
    Clamp(3 * target, 10, 75)
  }

  // ----- newest first

  function Insert(c: Candidate, cs: seq<Candidate>): seq<Candidate> {
    if cs == [] || cs[0].updated <= c.updated then [c] + cs else [cs[0]] + Insert(c, cs[1..])
  }

  /** The stable sort by descending time. */
  function NewestFirst(cs: seq<Candidate>): seq<Candidate> {
    if cs == [] then [] else Insert(cs[0], NewestFirst(cs[1..]))
  }

  predicate Descending(cs: seq<Candidate>) {
    forall i, j :: 0 <= i < j < |cs| ==> cs[i].updated >= cs[j].updated
  }

  function IfAt(c: Candidate, t: Time): seq<Candidate> {
    if c.updated == t then [c] else []
  }

  /** The candidates of one time, in order. */
  function At(cs: seq<Candidate>, t: Time): seq<Candidate> {
    if cs == [] then [] else IfAt(cs[0], t) + At(cs[1..], t)
  }

  lemma DescendingCons(c: Candidate, cs: seq<Candidate>)
    requires Descending(cs) && forall x :: x in cs ==> c.updated >= x.updated
    ensures Descending([c] + cs) && multiset([c] + cs) == multiset{c} + multiset(cs)
  {
  }

  lemma {:induction false} InsertSorts(c: Candidate, cs: seq<Candidate>)
    requires Descending(cs)
    ensures Descending(Insert(c, cs)) && multiset(Insert(c, cs)) == multiset{c} + multiset(cs)
  {
    if cs == [] || cs[0].updated <= c.updated {
      DescendingCons(c, cs);
    } else {
      var first, rest := cs[0], cs[1..];
      InsertSorts(c, rest);
      assert cs == [first] + rest;
      forall x | x in Insert(c, rest) ensures first.updated >= x.updated {
        assert x in multiset(Insert(c, rest));
      }
      DescendingCons(first, Insert(c, rest));
    }
  }

  lemma AtCons(c: Candidate, cs: seq<Candidate>, t: Time)
    ensures At([c] + cs, t) == IfAt(c, t) + At(cs, t)
  {
    assert ([c] + cs)[1..] == cs;
  }

  lemma SwapEmpty<T>(a: seq<T>, b: seq<T>, s: seq<T>)
    requires a == [] || b == []
    ensures a + (b + s) == b + (a + s)
  {
  }

  lemma {:induction false} InsertAt(c: Candidate, cs: seq<Candidate>, t: Time)
    ensures At(Insert(c, cs), t) == IfAt(c, t) + At(cs, t)
  {
    if cs == [] || cs[0].updated <= c.updated {
      AtCons(c, cs, t);
    } else {
      InsertAt(c, cs[1..], t);
      AtCons(cs[0], Insert(c, cs[1..]), t);
      SwapEmpty(IfAt(cs[0], t), IfAt(c, t), At(cs[1..], t));
    }
  }

  /** The same candidates, newest first, and those of one time in their order of discovery. */
  lemma {:induction false} NewestFirstSorts(cs: seq<Candidate>, t: Time)
    ensures var r := NewestFirst(cs); Descending(r) && multiset(r) == multiset(cs) && At(r, t) == At(cs, t)
  {
    if cs != [] {
      NewestFirstSorts(cs[1..], t);
      InsertSorts(cs[0], NewestFirst(cs[1..]));
      InsertAt(cs[0], NewestFirst(cs[1..]), t);
      assert cs == [cs[0]] + cs[1..];
    }
  }

  // ----- what uncached parsing gives

  function Ids(sessions: seq<Session>): set<string> {
    set k | 0 <= k < |sessions| :: sessions[k].displayId
  }

  /** One more candidate: its session is added unless its display id is already there. */
  function Add(parse: Parse, sessions: seq<Session>, c: Candidate): seq<Session> {
    match parse(c)
    case Some(s) => if s.displayId in Ids(sessions) then sessions else sessions + [s]
    case None => sessions
  }

  /** The parsed sessions of candidates, the first of each display id. */
  function Firsts(parse: Parse, cs: seq<Candidate>): seq<Session> {
    if cs == [] then [] else Add(parse, Firsts(parse, cs[..|cs| - 1]), cs[|cs| - 1])
  }

  function Take<T>(s: seq<T>, n: nat): seq<T> {
    if |s| > n then s[..n] else s
  }

  /** The candidates looked at. */
  function Newest(candidates: seq<Candidate>, target: nat): seq<Candidate> {
    Take(NewestFirst(candidates), Window(target))
  }

  function Uncached(parse: Parse, candidates: seq<Candidate>, target: nat): seq<Session> {
    Take(Firsts(parse, Newest(candidates, target)), target)
  }

  ghost predicate DistinctIds(sessions: seq<Session>) {
    forall i, j :: 0 <= i < j < |sessions| ==> sessions[i].displayId != sessions[j].displayId
  }

  /** Every session is a fresh parse, no display id comes twice, and no display id of a parsed candidate is missing. */
  lemma {:induction false} FirstsAre(parse: Parse, cs: seq<Candidate>)
    ensures var r := Firsts(parse, cs);
      && DistinctIds(r)
      && (forall s :: s in r ==> exists k :: 0 <= k < |cs| && parse(cs[k]) == Some(s))
      && (forall c :: c in cs && parse(c).Some? ==> parse(c).value.displayId in Ids(r))
  {
    if cs != [] {
      var init, last := cs[..|cs| - 1], cs[|cs| - 1];
      FirstsAre(parse, init);
      var before, r := Firsts(parse, init), Firsts(parse, cs);
      assert cs == init + [last];
      forall s | s in r ensures exists k :: 0 <= k < |cs| && parse(cs[k]) == Some(s) {
        if s in before {
          var k :| 0 <= k < |init| && parse(init[k]) == Some(s);
          assert parse(cs[k]) == Some(s);
        } else {
          assert parse(cs[|cs| - 1]) == Some(s);
        }
      }
      AddKeepsIds(parse, before, last);
    }
  }

  lemma AddKeepsIds(parse: Parse, sessions: seq<Session>, c: Candidate)
    ensures var r := Add(parse, sessions, c);
      && Ids(sessions) <= Ids(r) && sessions <= r
      && (parse(c).Some? ==> parse(c).value.displayId in Ids(r))
      && (r == sessions <==> parse(c).None? || parse(c).value.displayId in Ids(sessions))
  {
    var r := Add(parse, sessions, c);
    forall id | id in Ids(sessions) ensures id in Ids(r) {
      var k :| 0 <= k < |sessions| && sessions[k].displayId == id;
      assert r[k].displayId == id;
    }
    if r != sessions {
      assert r[|sessions|].displayId == parse(c).value.displayId;
    }
  }

  /** More candidates only add sessions at the end, and none exactly when they bring no new display id. */
  lemma {:induction false} FirstsGrow(parse: Parse, cs: seq<Candidate>, more: seq<Candidate>)
    ensures Firsts(parse, cs) <= Firsts(parse, cs + more)
    ensures Firsts(parse, cs) == Firsts(parse, cs + more) <==> !BringsNew(parse, Firsts(parse, cs), more)
    decreases |more|
  {
    if more == [] {
      assert cs + more == cs;
    } else {
      var init, last := more[..|more| - 1], more[|more| - 1];
      FirstsGrow(parse, cs, init);
      assert (cs + more)[..|cs + more| - 1] == cs + init;
      AddKeepsIds(parse, Firsts(parse, cs + init), last);
      assert more == init + [last];
      if BringsNew(parse, Firsts(parse, cs), init) {
        var k :| 0 <= k < |init| && IsNew(parse, Firsts(parse, cs), init[k]);
        assert IsNew(parse, Firsts(parse, cs), more[k]);
      } else if IsNew(parse, Firsts(parse, cs), last) {
        assert IsNew(parse, Firsts(parse, cs), more[|more| - 1]);
      }
    }
  }

  predicate IsNew(parse: Parse, sessions: seq<Session>, c: Candidate) {
    parse(c).Some? && parse(c).value.displayId !in Ids(sessions)
  }

  predicate BringsNew(parse: Parse, sessions: seq<Session>, cs: seq<Candidate>) {
    exists k :: 0 <= k < |cs| && IsNew(parse, sessions, cs[k])
  }

  /** What a smaller target misses: its window holds too few sessions, and the rest of the larger one has a new one. */
  predicate Starved(parse: Parse, candidates: seq<Candidate>, t: nat, larger: nat)
    requires t <= larger
  {
    var narrow, wide := Newest(candidates, t), Newest(candidates, larger);
    WindowsNest(candidates, t, larger);
    |Firsts(parse, narrow)| < t && BringsNew(parse, Firsts(parse, narrow), wide[|narrow|..])
  }

  lemma WindowsNest(candidates: seq<Candidate>, t: nat, larger: nat)
    requires t <= larger
    ensures Newest(candidates, t) <= Newest(candidates, larger)
  {
  }

  /** A larger target gives the same sessions and perhaps more. Cut down to the smaller one, it gives exactly the same
      unless the smaller one's window was too small. */
  lemma LargerTarget(parse: Parse, candidates: seq<Candidate>, t: nat, larger: nat)
    requires t <= larger
    ensures Uncached(parse, candidates, t) <= Uncached(parse, candidates, larger)
    ensures Take(Uncached(parse, candidates, larger), t) == Uncached(parse, candidates, t)
      <==> !Starved(parse, candidates, t, larger)
  {
    var narrow, wide := Newest(candidates, t), Newest(candidates, larger);
    WindowsNest(candidates, t, larger);
    assert wide == narrow + wide[|narrow|..];
    FirstsGrow(parse, narrow, wide[|narrow|..]);
    TakesOfPrefix(Firsts(parse, narrow), Firsts(parse, wide), t, larger);
  }

  lemma TakesOfPrefix<T>(a: seq<T>, b: seq<T>, m: nat, n: nat)
    requires a <= b && m <= n
    ensures Take(a, m) <= Take(b, n)
    ensures Take(Take(b, n), m) == Take(a, m) <==> |a| >= m || a == b
  {
    var x, y := Take(a, m), Take(Take(b, n), m);
    if |a| >= m {
      assert y == b[..m] == a[..m] == x;
    } else if a != b {
      assert |y| > |x|;
    }
  }

  // ----- the cache

  function Paths(cs: seq<Candidate>): set<Path> {
    set c | c in cs :: c.path
  }

  /** How many candidates are looked at before the target is reached. */
  function LookedAt(parse: Parse, cs: seq<Candidate>, target: nat): (r: nat)
    ensures r <= |cs|
  {
    LookedAtFrom(parse, cs, target, 0)
  }

  function LookedAtFrom(parse: Parse, cs: seq<Candidate>, target: nat, n: nat): (r: nat)
    requires n <= |cs|
    ensures r <= |cs|
    decreases |cs| - n
  {
    if n == |cs| || |Firsts(parse, cs[..n])| >= target then n else LookedAtFrom(parse, cs, target, n + 1)
  }

  /** It is the first place where there are enough sessions. */
  lemma {:induction false} LookedAtStops(parse: Parse, cs: seq<Candidate>, target: nat, n: nat)
    requires n <= |cs|
    ensures var r := LookedAtFrom(parse, cs, target, n);
      && (r == |cs| || |Firsts(parse, cs[..r])| >= target)
      && (forall m :: n <= m < r ==> |Firsts(parse, cs[..m])| < target)
    decreases |cs| - n
  {
    if !(n == |cs| || |Firsts(parse, cs[..n])| >= target) {
      LookedAtStops(parse, cs, target, n + 1);
    }
  }

  datatype CacheEntry = CacheEntry(mtime: Time, session: Option<Session>)

  /** The files whose entries are kept: those looked at. */
  function KeptPaths(parse: Parse, found: seq<Candidate>, target: nat): set<Path> {
    var w := Newest(found, target);
    Paths(w[..LookedAt(parse, w, target)])
  }

  /** Every entry is what parsing its file would give. */
  ghost predicate Parsed(parse: Parse, entries: map<Path, CacheEntry>) {
    forall path :: path in entries ==> entries[path].session == parse(Candidate(path, entries[path].mtime))
  }

  /** The sessions are what parsing without a cache gave for the candidates discovered at the last refresh. */
  ghost predicate Remembers(parse: Parse, discovered: seq<Candidate>, lastLimit: nat, lastRefresh: Option<nat>,
                            sessions: seq<Session>)
  {
    && lastLimit <= 25
    && (lastLimit == 0 <==> lastRefresh.None?)
    && (if lastLimit == 0 then sessions == [] else sessions == Uncached(parse, discovered, lastLimit))
  }

  class SessionCache {
    const parse: Parse
    var entries: map<Path, CacheEntry>
    var cachedSessions: seq<Session>
    var lastRefresh: Option<nat>
    var lastLimit: nat
    ghost var discovered: seq<Candidate>

    /** Every entry is what parsing its file would give, and the cached sessions are what parsing without a cache gave
        for the candidates discovered at the last refresh. */
    ghost predicate Valid()
      reads this
    {
      && Parsed(parse, entries)
      && |entries| <= 75
      && Remembers(parse, discovered, lastLimit, lastRefresh, cachedSessions)
    }

    constructor (parse: Parse)
      ensures Valid() && this.parse == parse && lastRefresh.None?
    {
      this.parse := parse;
      entries := map[];
      cachedSessions := [];
      lastRefresh := None;
      lastLimit := 0;
      discovered := [];
    }

    /** The session of one candidate, from the cache if its file has not changed. */
    method SessionOf(c: Candidate) returns (session: Option<Session>)
      requires Parsed(parse, entries)
      modifies this`entries
      ensures Parsed(parse, entries) && session == parse(c)
      ensures entries.Keys == old(entries.Keys) + {c.path}
    {
      if c.path in entries && entries[c.path].mtime == c.updated {
        session := entries[c.path].session;
        assert c == Candidate(c.path, c.updated);
      } else {
        session := parse(c);
        entries := entries[c.path := CacheEntry(c.updated, session)];
      }
    }

    /** The loop over the newest candidates, up to the target. */
    method Collect(candidates: seq<Candidate>, target: nat) returns (livePaths: set<Path>, sessions: seq<Session>)
      requires Parsed(parse, entries) && target > 0
      modifies this`entries
      ensures Parsed(parse, entries) && livePaths <= entries.Keys && |livePaths| <= |candidates|
      ensures livePaths == Paths(candidates[..LookedAt(parse, candidates, target)])
      ensures sessions == Take(Firsts(parse, candidates), target)
    {
      livePaths, sessions := {}, [];
      var seen := {};
      var i := 0;
      while i < |candidates|
        invariant i <= |candidates| && Parsed(parse, entries)
        invariant sessions == Firsts(parse, candidates[..i]) && |sessions| < target && seen == Ids(sessions)
        invariant livePaths <= entries.Keys && |livePaths| <= i && livePaths == Paths(candidates[..i])
        invariant LookedAt(parse, candidates, target) == LookedAtFrom(parse, candidates, target, i)
      {
        var c := candidates[i];
        livePaths := livePaths + {c.path};
        var session := SessionOf(c);
        CollectNext(parse, candidates, i, sessions);
        PathsNext(candidates, i);
        i := i + 1;
        if session.Some? && session.value.displayId !in seen {
          seen := seen + {session.value.displayId};
          sessions := sessions + [session.value];
          if |sessions| >= target {
            break;
          }
        }
      }
      ReachedTarget(parse, candidates, i, sessions, target);
    }

    /** Drops the entries of files not looked at. */
    method Retain(livePaths: set<Path>)
      requires Parsed(parse, entries) && livePaths <= entries.Keys
      modifies this`entries
      ensures Parsed(parse, entries) && entries.Keys == livePaths && |entries| == |livePaths|
    {
      entries := map path | path in entries && path in livePaths :: entries[path];
      assert entries.Keys == livePaths;
    }

    /** Parses the newest candidates, up to the target, and forgets all other files. */
    method CollectNewest(found: seq<Candidate>, target: nat) returns (sessions: seq<Session>)
      requires Parsed(parse, entries) && 1 <= target <= 25
      modifies this`entries
      ensures Parsed(parse, entries) && |entries| <= 75 && entries.Keys == KeptPaths(parse, found, target)
      ensures sessions == Uncached(parse, found, target)
    {
      var livePaths;
      livePaths, sessions := Collect(Newest(found, target), target);
      Retain(livePaths);
    }

    method Refresh(limit: nat, found: seq<Candidate>, now: nat)
      requires Valid()
      modifies this
      ensures Valid() && lastRefresh == Some(now) && lastLimit == TargetOf(limit) && discovered == found
      ensures cachedSessions == Uncached(parse, found, TargetOf(limit))
      ensures entries.Keys == KeptPaths(parse, found, TargetOf(limit))
    {
      RefreshFor(TargetOf(limit), found, now);
    }

    method RefreshFor(target: nat, found: seq<Candidate>, now: nat)
      requires Valid() && 1 <= target <= 25
      modifies this
      ensures Valid() && lastRefresh == Some(now) && lastLimit == target && discovered == found
      ensures cachedSessions == Uncached(parse, found, target)
      ensures entries.Keys == KeptPaths(parse, found, target)
    {
      cachedSessions := CollectNewest(found, target);
      lastRefresh, lastLimit, discovered := Some(now), target, found;
    }

    /** The sessions discovered now, or those of the last refresh while it is recent and was as large. */
    method DiscoverCached(limit: nat, maxAge: nat, found: seq<Candidate>, now: nat) returns (sessions: seq<Session>)
      requires Valid() && (lastRefresh.Some? ==> lastRefresh.value <= now)
      modifies this
      ensures Valid() && lastLimit >= TargetOf(limit)
      ensures sessions == Take(Uncached(parse, discovered, lastLimit), TargetOf(limit))
      ensures old(lastLimit < TargetOf(limit) || lastRefresh.None? || now - lastRefresh.value >= maxAge)
        ==> discovered == found && sessions == Uncached(parse, found, TargetOf(limit))
      ensures !old(lastLimit < TargetOf(limit) || lastRefresh.None? || now - lastRefresh.value >= maxAge)
        ==> unchanged(this)
    {
      var target := TargetOf(limit);
      if lastLimit < target || lastRefresh.None? || now - lastRefresh.value >= maxAge {
        Refresh(target, found, now);
        assert TargetOf(target) == target;
      }
      sessions := Take(cachedSessions, target);
    }
  }

  lemma IdsSnoc(sessions: seq<Session>, s: Session)
    ensures Ids(sessions + [s]) == Ids(sessions) + {s.displayId}
  {
    var r := sessions + [s];
    assert r[|sessions|] == s;
    forall id | id in Ids(sessions) ensures id in Ids(r) {
      var k :| 0 <= k < |sessions| && sessions[k].displayId == id;
      assert r[k].displayId == id;
    }
  }

  lemma FirstsNext(parse: Parse, cs: seq<Candidate>, i: nat)
    requires i < |cs|
    ensures Firsts(parse, cs[..i + 1]) == Add(parse, Firsts(parse, cs[..i]), cs[i])
  {
    assert cs[..i + 1][..i] == cs[..i];
  }

  lemma PathsNext(cs: seq<Candidate>, i: nat)
    requires i < |cs|
    ensures Paths(cs[..i + 1]) == Paths(cs[..i]) + {cs[i].path}
  {
    assert cs[..i + 1] == cs[..i] + [cs[i]];
  }

  lemma CollectNext(parse: Parse, cs: seq<Candidate>, i: nat, sessions: seq<Session>)
    requires i < |cs| && sessions == Firsts(parse, cs[..i])
    ensures match parse(cs[i])
      case None => Firsts(parse, cs[..i + 1]) == sessions
      case Some(s) =>
        && Firsts(parse, cs[..i + 1]) == (if s.displayId in Ids(sessions) then sessions else sessions + [s])
        && Ids(sessions + [s]) == Ids(sessions) + {s.displayId}
  {
    FirstsNext(parse, cs, i);
    if parse(cs[i]).Some? {
      IdsSnoc(sessions, parse(cs[i]).value);
    }
  }

  /** Where the loop stopped, the rest of the candidates could not change the outcome. */
  lemma ReachedTarget(parse: Parse, cs: seq<Candidate>, i: nat, sessions: seq<Session>, target: nat)
    requires i <= |cs| && sessions == Firsts(parse, cs[..i])
    requires (i == |cs| && |sessions| <= target) || |sessions| == target
    ensures sessions == Take(Firsts(parse, cs), target)
  {
    FirstsGrow(parse, cs[..i], cs[i..]);
    assert cs[..i] + cs[i..] == cs;
    if i == |cs| {
      assert cs[..i] == cs;
    }
  }

  // ----- the cache and no cache

  /** What is served within the age limit is the same as parsing without a cache would give for those candidates,
      exactly unless the last refresh had a larger target whose window made up for too small a one. */
  lemma ServedIsUncachedIff(parse: Parse, discovered: seq<Candidate>, lastLimit: nat, t: nat)
    requires t <= lastLimit
    ensures Uncached(parse, discovered, t) <= Take(Uncached(parse, discovered, lastLimit), t)
    ensures Take(Uncached(parse, discovered, lastLimit), t) == Uncached(parse, discovered, t)
      <==> !Starved(parse, discovered, t, lastLimit)
  {
    LargerTarget(parse, discovered, t, lastLimit);
    assert |Uncached(parse, discovered, t)| <= t;
  }

  /** Ten new files that do not parse and an older one that does. */
  function TenAndOne(): (r: seq<Candidate>)
    ensures |r| == 11 && forall k :: 0 <= k < 11 ==> r[k] == if k < 10 then Candidate("new", 1) else Candidate("old", 0)
  {
    seq(11, k => if k < 10 then Candidate("new", 1) else Candidate("old", 0))
  }

  function ParseOld(c: Candidate): Option<Session> {
    if c.updated == 0 then Some(Session("s", "")) else None
  }

  /** Served on its own, a target of 1 finds nothing in these; after a target of 4, it finds the session. */
  lemma ServedCanDiffer()
    ensures Take(Uncached(ParseOld, TenAndOne(), 4), 1) != Uncached(ParseOld, TenAndOne(), 1)
  {
    var cs := TenAndOne();
    TenAndOneStarve(cs);
    LargerTarget(ParseOld, cs, 1, 4);
  }

  lemma TenAndOneStarve(cs: seq<Candidate>)
    requires cs == TenAndOne()
    ensures Starved(ParseOld, cs, 1, 4)
  {
    SortedStays(cs);
    assert Newest(cs, 1) == cs[..10] && Newest(cs, 4) == cs;
    NothingParsed(ParseOld, cs[..10]);
    assert Ids([]) == {};
    assert cs[10..][0] == Candidate("old", 0);
    assert IsNew(ParseOld, [], cs[10..][0]);
  }

  lemma {:induction false} SortedStays(cs: seq<Candidate>)
    requires Descending(cs)
    ensures NewestFirst(cs) == cs
  {
    if cs != [] {
      SortedStays(cs[1..]);
    }
  }

  lemma {:induction false} NothingParsed(parse: Parse, cs: seq<Candidate>)
    requires forall c :: c in cs ==> parse(c).None?
    ensures Firsts(parse, cs) == []
  {
    if cs != [] {
      NothingParsed(parse, cs[..|cs| - 1]);
      assert cs[|cs| - 1] in cs;
    }
  }
}
