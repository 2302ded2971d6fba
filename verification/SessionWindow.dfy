/** Which session files are looked at and which sessions are served, said without the functions that compute them. */
module SessionWindow {
  import opened Wrappers
  import opened Selections
  import opened SessionCache

  function ModifiedAt(t: Time): Candidate -> bool {
    (c: Candidate) => c.updated == t
  }

  /** A prefix of the selection of `s` is the selection of `w`. */
  ghost predicate KeepsOrder(s: seq<Candidate>, w: seq<Candidate>, t: Time) {
    exists all: seq<Candidate>, mine: seq<Candidate> ::
      Selects(s, ModifiedAt(t), all) && Selects(w, ModifiedAt(t), mine) && mine <= all
  }

  /** The candidates looked at for a target of `t`: three times as many as wanted, but at least 10 and at most 75, or all
      there are; newest first, none left out newer than one looked at, and those of one time in order of discovery. */
  ghost predicate IsWindow(found: seq<Candidate>, t: nat, w: seq<Candidate>) {
    && |w| == (var most := if 3 * t < 10 then 10 else if 3 * t > 75 then 75 else 3 * t;
               if |found| < most then |found| else most)
    && Descending(w)
    && multiset(w) <= multiset(found)
    && (forall x, y :: x in multiset(found) - multiset(w) && y in w ==> x.updated <= y.updated)
    && forall time :: KeepsOrder(found, w, time)
  }

  // ----- the window

  lemma AtSnoc(cs: seq<Candidate>, c: Candidate, t: Time)
    ensures At(cs + [c], t) == At(cs, t) + IfAt(c, t)
  {
    if cs == [] {
      assert [] + [c] == [c];
    } else {
      AtSnoc(cs[1..], c, t);
      assert (cs + [c])[1..] == cs[1..] + [c];
    }
  }

  lemma {:induction false} AtSelects(cs: seq<Candidate>, t: Time)
    ensures Selects(cs, ModifiedAt(t), At(cs, t))
  {
    if cs == [] {
      SelectsNothing(ModifiedAt(t));
    } else {
      var init, last := cs[..|cs| - 1], cs[|cs| - 1];
      assert cs == init + [last];
      AtSelects(init, t);
      AtSnoc(init, last, t);
      SelectsSnoc(init, last, ModifiedAt(t), At(init, t));
      assert At(init, t) + [] == At(init, t);
    }
  }

  lemma {:induction false} AtPrefix(cs: seq<Candidate>, n: nat, t: Time)
    requires n <= |cs|
    ensures At(cs[..n], t) <= At(cs, t)
    decreases |cs| - n
  {
    if n < |cs| {
      AtPrefix(cs, n + 1, t);
      assert cs[..n + 1] == cs[..n] + [cs[n]];
      AtSnoc(cs[..n], cs[n], t);
    } else {
      assert cs[..n] == cs;
    }
  }

  lemma TakeKeepsOrder(found: seq<Candidate>, sorted: seq<Candidate>, n: nat, time: Time)
    requires n <= |sorted| && At(sorted, time) == At(found, time)
    ensures KeepsOrder(found, sorted[..n], time)
  {
    AtSelects(found, time);
    AtSelects(sorted[..n], time);
    AtPrefix(sorted, n, time);
  }

  lemma RestIsOlder(sorted: seq<Candidate>, n: nat, x: Candidate, y: Candidate)
    requires Descending(sorted) && n <= |sorted| && x in multiset(sorted) - multiset(sorted[..n]) && y in sorted[..n]
    ensures x.updated <= y.updated
  {
    assert sorted == sorted[..n] + sorted[n..];
    assert x in multiset(sorted[n..]);
    var i :| 0 <= i < n && sorted[i] == y;
    var k :| 0 <= k < |sorted[n..]| && sorted[n..][k] == x;
    assert sorted[n + k] == x;
  }

  lemma TakeIsWithin(sorted: seq<Candidate>, n: nat)
    requires n <= |sorted|
    ensures multiset(sorted[..n]) <= multiset(sorted)
  {
    assert sorted == sorted[..n] + sorted[n..];
  }

  lemma SortedSize(found: seq<Candidate>)
    ensures |NewestFirst(found)| == |found|
  {
    NewestFirstSorts(found, 0);
    assert |NewestFirst(found)| == |multiset(NewestFirst(found))| && |found| == |multiset(found)|;
  }

  lemma TakeIsWindow(found: seq<Candidate>, sorted: seq<Candidate>, t: nat, n: nat)
    requires Descending(sorted) && multiset(sorted) == multiset(found) && |sorted| == |found|
    requires forall time :: At(sorted, time) == At(found, time)
    requires n == var most := if 3 * t < 10 then 10 else if 3 * t > 75 then 75 else 3 * t;
      if |found| < most then |found| else most
    ensures IsWindow(found, t, sorted[..n])
  {
    TakeIsWithin(sorted, n);
    forall x, y | x in multiset(found) - multiset(sorted[..n]) && y in sorted[..n] ensures x.updated <= y.updated {
      RestIsOlder(sorted, n, x, y);
    }
    forall time ensures KeepsOrder(found, sorted[..n], time) {
      TakeKeepsOrder(found, sorted, n, time);
    }
  }

  lemma NewestIsWindow(found: seq<Candidate>, t: nat)
    ensures IsWindow(found, t, Newest(found, t))
  {
    var sorted, w := NewestFirst(found), Newest(found, t);
    SortedSize(found);
    NewestFirstSorts(found, 0);
    forall time ensures At(sorted, time) == At(found, time) {
      NewestFirstSorts(found, time);
    }
    assert sorted[..|sorted|] == sorted;
    assert w == sorted[..|w|];
    TakeIsWindow(found, sorted, t, |w|);
  }

  // ----- the sessions served

  /** The candidate parses, and none before it gives a session with its display id. */
  ghost predicate IsFirst(parse: Parse, w: seq<Candidate>, i: nat) {
    && i < |w| && parse(w[i]).Some?
    && forall k :: 0 <= k < i && parse(w[k]).Some? ==> parse(w[k]).value.displayId != parse(w[i]).value.displayId
  }

  /** The sessions are fresh parses of candidates of `w` in the order of `w`: for each display id the first, and the first
      `t` of these. */
  ghost predicate ServedFrom(parse: Parse, w: seq<Candidate>, t: nat, sessions: seq<Session>) {
    exists at: seq<nat> :: ServedAt(parse, w, t, sessions, at)
  }

  ghost predicate ServedAt(parse: Parse, w: seq<Candidate>, t: nat, sessions: seq<Session>, at: seq<nat>) {
    && |sessions| == |at| <= t && Increasing(at)
    && (forall k :: 0 <= k < |at| ==> IsFirst(parse, w, at[k]) && parse(w[at[k]]) == Some(sessions[k]))
    && (forall i :: IsFirst(parse, w, i) ==> i in at || (|at| == t && forall k :: 0 <= k < t ==> at[k] < i))
  }

  /** All first sessions, without a target. */
  ghost predicate AllAt(parse: Parse, w: seq<Candidate>, sessions: seq<Session>, at: seq<nat>) {
    FirstsAt(parse, w, sessions, at) && AllFirsts(parse, w, at)
  }

  lemma FirstNext(parse: Parse, w: seq<Candidate>, c: Candidate, i: nat)
    requires i < |w|
    ensures IsFirst(parse, w + [c], i) <==> IsFirst(parse, w, i)
  {
    var w' := w + [c];
    assert forall k :: 0 <= k <= i ==> w'[k] == w[k];
  }

  /** The last candidate gives the first session of its display id exactly when its id is new. */
  lemma LastIsFirst(parse: Parse, w: seq<Candidate>, c: Candidate)
    ensures IsFirst(parse, w + [c], |w|) <==> parse(c).Some? && parse(c).value.displayId !in Ids(Firsts(parse, w))
  {
    var w', r := w + [c], Firsts(parse, w);
    FirstsAre(parse, w);
    assert forall k :: 0 <= k < |w| ==> w'[k] == w[k];
    if parse(c).Some? && parse(c).value.displayId in Ids(r) {
      var j :| 0 <= j < |r| && r[j].displayId == parse(c).value.displayId;
      assert r[j] in r;
      var k :| 0 <= k < |w| && parse(w[k]) == Some(r[j]);
      assert parse(w'[k]).value.displayId == parse(w'[|w|]).value.displayId;
    } else if parse(c).Some? {
      forall k | 0 <= k < |w| && parse(w[k]).Some? ensures parse(w[k]).value.displayId != parse(c).value.displayId {
        assert w[k] in w;
      }
    }
  }

  /** These are first sessions, in order. */
  ghost predicate FirstsAt(parse: Parse, w: seq<Candidate>, sessions: seq<Session>, at: seq<nat>) {
    && |sessions| == |at| && Increasing(at)
    && forall k :: 0 <= k < |at| ==> IsFirst(parse, w, at[k]) && parse(w[at[k]]) == Some(sessions[k])
  }

  ghost predicate AllFirsts(parse: Parse, w: seq<Candidate>, at: seq<nat>) {
    forall i :: IsFirst(parse, w, i) ==> i in at
  }

  lemma FirstsAtNext(parse: Parse, w: seq<Candidate>, c: Candidate, sessions: seq<Session>, at: seq<nat>)
    requires FirstsAt(parse, w, sessions, at)
    ensures FirstsAt(parse, w + [c], sessions, at)
  {
    forall k | 0 <= k < |at| ensures IsFirst(parse, w + [c], at[k]) && (w + [c])[at[k]] == w[at[k]] {
      FirstNext(parse, w, c, at[k]);
    }
  }

  lemma FirstsAtMore(parse: Parse, w: seq<Candidate>, sessions: seq<Session>, at: seq<nat>, i: nat)
    requires FirstsAt(parse, w, sessions, at) && IsFirst(parse, w, i) && forall k :: 0 <= k < |at| ==> at[k] < i
    ensures FirstsAt(parse, w, sessions + [parse(w[i]).value], at + [i])
  {
  }

  lemma AllFirstsNext(parse: Parse, w: seq<Candidate>, c: Candidate, at: seq<nat>)
    requires AllFirsts(parse, w, at)
    ensures AllFirsts(parse, w + [c], if IsFirst(parse, w + [c], |w|) then at + [|w|] else at)
  {
    var at' := if IsFirst(parse, w + [c], |w|) then at + [|w|] else at;
    forall i: nat | IsFirst(parse, w + [c], i) ensures i in at' {
      if i < |w| {
        FirstNext(parse, w, c, i);
        assert i in at;
      } else {
        assert at'[|at|] == i;
      }
    }
  }

  lemma AllAtNext(parse: Parse, w: seq<Candidate>, c: Candidate, sessions: seq<Session>, at: seq<nat>)
    requires AllAt(parse, w, sessions, at) && sessions == Firsts(parse, w)
    ensures AllAt(parse, w + [c], Add(parse, sessions, c), if IsFirst(parse, w + [c], |w|) then at + [|w|] else at)
  {
    LastIsFirst(parse, w, c);
    FirstsAtNext(parse, w, c, sessions, at);
    AllFirstsNext(parse, w, c, at);
    if IsFirst(parse, w + [c], |w|) {
      FirstsAtMore(parse, w + [c], sessions, at, |w|);
    }
  }

  lemma {:induction false} FirstsAreAllAt(parse: Parse, w: seq<Candidate>) returns (at: seq<nat>)
    ensures AllAt(parse, w, Firsts(parse, w), at)
  {
    at := [];
    if w != [] {
      var init, last := w[..|w| - 1], w[|w| - 1];
      assert w == init + [last];
      at := FirstsAreAllAt(parse, init);
      AllAtNext(parse, init, last, Firsts(parse, init), at);
      at := if IsFirst(parse, w, |w| - 1) then at + [|w| - 1] else at;
    }
  }

  lemma CutAt(parse: Parse, w: seq<Candidate>, t: nat, sessions: seq<Session>, at: seq<nat>)
    requires AllAt(parse, w, sessions, at)
    ensures ServedFrom(parse, w, t, Take(sessions, t))
  {
    var cut := if |at| > t then at[..t] else at;
    forall i | IsFirst(parse, w, i) ensures i in cut || (|cut| == t && forall k :: 0 <= k < t ==> cut[k] < i) {
      var k :| 0 <= k < |at| && at[k] == i;
      if k < |cut| {
        assert cut[k] == i;
      }
    }
    assert ServedAt(parse, w, t, Take(sessions, t), cut);
  }

  /** Parsing without a cache looks at such a window and serves the first sessions in its order. */
  lemma UncachedServesWindow(parse: Parse, found: seq<Candidate>, t: nat)
    ensures exists w: seq<Candidate> :: IsWindow(found, t, w) && ServedFrom(parse, w, t, Uncached(parse, found, t))
  {
    ServedIsWindow(parse, found, t, t);
    assert Take(Uncached(parse, found, t), t) == Uncached(parse, found, t);
  }

  /** What is served for a target of `t` after a refresh for one as large are the first sessions of the refresh's
      window. */
  lemma ServedIsWindow(parse: Parse, found: seq<Candidate>, t: nat, larger: nat)
    requires t <= larger
    ensures exists w: seq<Candidate> ::
      IsWindow(found, larger, w) && ServedFrom(parse, w, t, Take(Uncached(parse, found, larger), t))
  {
    var w := Newest(found, larger);
    NewestIsWindow(found, larger);
    var at := FirstsAreAllAt(parse, w);
    CutAt(parse, w, t, Firsts(parse, w), at);
    assert Take(Take(Firsts(parse, w), larger), t) == Take(Firsts(parse, w), t);
  }
}
