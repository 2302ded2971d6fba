/** Circular linear probing, as both pid tables of the loaders do it: start at the pid's home slot and walk
    forward, wrapping once, until an empty slot or the pid itself. A table is seen here only through the pid
    each slot holds (`None` for a slot that is not in use). */
module Probing {
  import opened Wrappers

  /** A C `pid_t`: a 32-bit signed integer. */
  type Pid = p: int | -0x8000_0000 <= p < 0x8000_0000

  type Table = seq<Option<Pid>>

  /** The value of `(unsigned int)pid`. */
  function Unsigned(p: Pid): nat {
    if p < 0 then p + 0x1_0000_0000 else p
  }

  function Home(n: nat, p: Pid): (h: nat)
    requires n > 0
    ensures h < n
  {
    Unsigned(p) % n
  }

  /** The `i`-th slot of the probe path that starts at `home`. */
  function At(n: nat, home: nat, i: nat): (s: nat)
    requires home < n && i < n
    ensures s < n && s == (home + i) % n
  {
    if home + i < n then
      Remainder(home + i, 0, n);
      home + i
    else
      Remainder(home + i, 1, n);
      home + i - n
  }

  lemma Remainder(a: nat, q: nat, n: nat)
    requires n > 0 && n * q <= a < n * (q + 1)
    ensures a % n == a - n * q
  {
    var p := a / n;
    Multiples(n, p, q);
    Multiples(n, q, p);
  }

  lemma Multiples(n: nat, x: nat, y: nat)
    ensures x < y ==> n * (x + 1) <= n * y
  {
  }

  /** How many steps after `home` the probe path reaches slot `s`. */
  function Dist(n: nat, home: nat, s: nat): (d: nat)
    requires home < n && s < n
    ensures d < n && At(n, home, d) == s
  {
    if home <= s then s - home else s + n - home
  }

  /** Where a probe for `p` stops: at the slot that holds `p`, at the first unused slot, or nowhere. */
  datatype Stop = Hit(slot: nat) | Gap(slot: nat) | Exhausted

  function ProbeFrom(t: Table, p: Pid, i: nat): (r: Stop)
    requires |t| > 0 && i <= |t|
    ensures r.Hit? ==> r.slot < |t| && t[r.slot] == Some(p)
    ensures r.Gap? ==> r.slot < |t| && t[r.slot] == None
    ensures !r.Exhausted? ==> i <= Dist(|t|, Home(|t|, p), r.slot)
    decreases |t| - i
  {
    if i == |t| then Exhausted
    else
      var s := At(|t|, Home(|t|, p), i);
      if t[s] == None then Gap(s)
      else if t[s] == Some(p) then Hit(s)
      else ProbeFrom(t, p, i + 1)
  }

  function Probe(t: Table, p: Pid): Stop
    requires |t| > 0
  {
    ProbeFrom(t, p, 0)
  }

  /** Every slot strictly before `s` on the path of `p` is in use by some other pid. */
  ghost predicate Passed(t: Table, p: Pid, s: nat)
    requires s < |t|
  {
    forall u :: 0 <= u < |t| && Dist(|t|, Home(|t|, p), u) < Dist(|t|, Home(|t|, p), s) ==>
      t[u] != None && t[u] != Some(p)
  }

  /** Slot `u` lies on the probe path of the pid stored in slot `s`, at or before `s`. */
  predicate OnPath(t: Table, u: nat, s: nat)
    requires u < |t| && s < |t| && t[s].Some?
  {
    var home := Home(|t|, t[s].value);
    Dist(|t|, home, u) <= Dist(|t|, home, s)
  }

  ghost predicate NoRepeats(t: Table) {
    forall s, u :: 0 <= s < u < |t| && t[s].Some? ==> t[s] != t[u]
  }

  /** The probe-chain invariant: no pid is stored twice, and no unused slot separates a pid from its home. */
  ghost predicate Intact(t: Table) {
    && NoRepeats(t)
    && (forall s, u :: 0 <= s < |t| && 0 <= u < |t| && t[s].Some? && OnPath(t, u, s) ==> t[u].Some?)
  }

  ghost predicate Holds(t: Table, p: Pid) {
    exists s :: 0 <= s < |t| && t[s] == Some(p)
  }

  // ----- what a probe stops at

  lemma {:induction false} ProbeFromPassed(t: Table, p: Pid, i: nat)
    requires |t| > 0 && i <= |t|
    requires forall u :: 0 <= u < |t| && Dist(|t|, Home(|t|, p), u) < i ==> t[u] != None && t[u] != Some(p)
    ensures var r := ProbeFrom(t, p, i);
      if r.Exhausted? then forall u :: 0 <= u < |t| ==> t[u] != None && t[u] != Some(p) else Passed(t, p, r.slot)
    decreases |t| - i
  {
    if i < |t| {
      var home := Home(|t|, p);
      var s := At(|t|, home, i);
      if t[s] != None && t[s] != Some(p) {
        forall u | 0 <= u < |t| && Dist(|t|, home, u) < i + 1 ensures t[u] != None && t[u] != Some(p) {
          if Dist(|t|, home, u) == i {
            assert At(|t|, home, Dist(|t|, home, u)) == u;
          }
        }
        ProbeFromPassed(t, p, i + 1);
      }
    }
  }

  lemma ProbePassed(t: Table, p: Pid)
    requires |t| > 0
    ensures var r := Probe(t, p);
      if r.Exhausted? then forall u :: 0 <= u < |t| ==> t[u] != None && t[u] != Some(p) else Passed(t, p, r.slot)
  {
    ProbeFromPassed(t, p, 0);
  }

  /** A probe finds slot `s` exactly when `s` holds the pid and the path up to it is taken by other pids. */
  lemma ProbeHits(t: Table, p: Pid, s: nat)
    requires s < |t|
    ensures Probe(t, p) == Hit(s) <==> t[s] == Some(p) && Passed(t, p, s)
  {
    ProbePassed(t, p);
    var r := Probe(t, p);
    if t[s] == Some(p) && Passed(t, p, s) {
      var home := Home(|t|, p);
      assert !r.Exhausted?;
      if Dist(|t|, home, r.slot) < Dist(|t|, home, s) {
        assert false;
      } else if Dist(|t|, home, s) < Dist(|t|, home, r.slot) {
        assert false;
      } else {
        assert At(|t|, home, Dist(|t|, home, r.slot)) == s;
      }
    }
  }

  // ----- the invariant is exactly "every stored pid is found where it sits"

  lemma IntactFinds(t: Table, s: nat)
    requires Intact(t) && s < |t| && t[s].Some?
    ensures Probe(t, t[s].value) == Hit(s)
  {
    var p := t[s].value;
    forall u | 0 <= u < |t| && Dist(|t|, Home(|t|, p), u) < Dist(|t|, Home(|t|, p), s)
      ensures t[u] != None && t[u] != Some(p)
    {
      assert OnPath(t, u, s);
      if u < s { assert t[u] != t[s]; } else { assert t[s] != t[u]; }
    }
    ProbeHits(t, p, s);
  }

  lemma IntactIffFound(t: Table)
    requires |t| > 0
    ensures Intact(t) <==> forall s :: 0 <= s < |t| && t[s].Some? ==> Probe(t, t[s].value) == Hit(s)
  {
    if Intact(t) {
      forall s | 0 <= s < |t| && t[s].Some? ensures Probe(t, t[s].value) == Hit(s) {
        IntactFinds(t, s);
      }
    }
    if forall s :: 0 <= s < |t| && t[s].Some? ==> Probe(t, t[s].value) == Hit(s) {
      forall s, u | 0 <= s < u < |t| && t[s].Some? ensures t[s] != t[u] {
        if t[u].Some? {
          assert Probe(t, t[s].value) == Hit(s) && Probe(t, t[u].value) == Hit(u);
        }
      }
      forall s, u | 0 <= s < |t| && 0 <= u < |t| && t[s].Some? && OnPath(t, u, s) ensures t[u].Some? {
        var p := t[s].value;
        ProbeHits(t, p, s);
        var home := Home(|t|, p);
        if Dist(|t|, home, u) == Dist(|t|, home, s) {
          assert At(|t|, home, Dist(|t|, home, u)) == s;
        }
      }
    }
  }

  /** In an intact table a probe decides membership. */
  lemma IntactDecides(t: Table, p: Pid)
    requires |t| > 0 && Intact(t)
    ensures Probe(t, p).Hit? <==> Holds(t, p)
  {
    if Holds(t, p) {
      var s :| 0 <= s < |t| && t[s] == Some(p);
      IntactFinds(t, s);
    }
  }

  // ----- what keeps the invariant

  lemma FillGapIntact(t: Table, p: Pid)
    requires |t| > 0 && Intact(t) && Probe(t, p).Gap?
    ensures Intact(t[Probe(t, p).slot := Some(p)])
  {
    var g := Probe(t, p).slot;
    var t' := t[g := Some(p)];
    ProbePassed(t, p);
    IntactDecides(t, p);
    forall s, u | 0 <= s < u < |t'| && t'[s].Some? ensures t'[s] != t'[u] {
      if u == g {
        assert t[s].Some?;
      }
    }
    forall s, u | 0 <= s < |t'| && 0 <= u < |t'| && t'[s].Some? && OnPath(t', u, s) ensures t'[u].Some? {
      if s == g && u != g {
        var home := Home(|t|, p);
        assert At(|t|, home, Dist(|t|, home, u)) == u && At(|t|, home, Dist(|t|, home, g)) == g;
        assert Dist(|t|, home, u) < Dist(|t|, home, g);
      } else if s != g {
        assert OnPath(t, u, s);
      }
    }
  }

  /** After `p` is written to slot `v`, the table holds what it held elsewhere, and `p`. */
  lemma WriteHolds(t: Table, p: Pid, v: nat, q: Pid)
    requires v < |t| && NoRepeats(t)
    ensures Holds(t[v := Some(p)], q) <==> q == p || (Holds(t, q) && t[v] != Some(q))
  {
    var t' := t[v := Some(p)];
    assert t'[v] == Some(p);
    if Holds(t, q) && t[v] != Some(q) {
      var s :| 0 <= s < |t| && t[s] == Some(q);
      assert t'[s] == Some(q);
    }
  }

  lemma ClearHolds(t: Table, v: nat, q: Pid)
    requires v < |t| && NoRepeats(t)
    ensures Holds(t[v := None], q) <==> Holds(t, q) && t[v] != Some(q)
  {
    var t' := t[v := None];
    if Holds(t, q) && t[v] != Some(q) {
      var s :| 0 <= s < |t| && t[s] == Some(q);
      assert t'[s] == Some(q);
    }
  }

  /** In a full table any slot may be overwritten with a pid the table does not hold. */
  lemma OverwriteFullIntact(t: Table, p: Pid, v: nat)
    requires Intact(t) && v < |t| && !Holds(t, p)
    requires forall u :: 0 <= u < |t| ==> t[u].Some?
    ensures Intact(t[v := Some(p)])
  {
    var t' := t[v := Some(p)];
    forall s, u | 0 <= s < u < |t'| && t'[s].Some? ensures t'[s] != t'[u] {
    }
  }

  /** Emptying slot `v` without a tombstone keeps the chains exactly when `v` is on no other pid's path. */
  lemma ClearIntactIff(t: Table, v: nat)
    requires Intact(t) && v < |t| && t[v].Some?
    ensures Intact(t[v := None]) <==> forall s :: 0 <= s < |t| && s != v && t[s].Some? ==> !OnPath(t, v, s)
  {
    var t' := t[v := None];
    if Intact(t') {
      forall s | 0 <= s < |t| && s != v && t[s].Some? ensures !OnPath(t, v, s) {
        assert t'[s] == t[s] && t'[v] == None;
        assert OnPath(t', v, s) == OnPath(t, v, s);
      }
    }
    if forall s :: 0 <= s < |t| && s != v && t[s].Some? ==> !OnPath(t, v, s) {
      forall s, u | 0 <= s < |t'| && 0 <= u < |t'| && t'[s].Some? && OnPath(t', u, s) ensures t'[u].Some? {
        assert OnPath(t, u, s);
      }
    }
  }

  // ----- counting

  /** The pids in the first `n` slots. */
  ghost function PidsBelow(k: Table, n: nat): set<Pid>
    requires n <= |k|
  {
    if n == 0 then {}
    else PidsBelow(k, n - 1) + if k[n - 1].Some? then {k[n - 1].value} else {}
  }

  lemma {:induction false} PidsBelowHolds(k: Table, n: nat, p: Pid)
    requires n <= |k|
    ensures p in PidsBelow(k, n) <==> exists s :: 0 <= s < n && k[s] == Some(p)
  {
    if n > 0 {
      PidsBelowHolds(k, n - 1, p);
    }
  }

  lemma {:induction false} PidsBelowSize(k: Table, n: nat)
    requires n <= |k| && NoRepeats(k)
    ensures |PidsBelow(k, n)| <= n
    ensures |PidsBelow(k, n)| == n <==> forall s :: 0 <= s < n ==> k[s].Some?
  {
    if n > 0 {
      PidsBelowSize(k, n - 1);
      if k[n - 1].Some? {
        PidsBelowHolds(k, n - 1, k[n - 1].value);
      }
    }
  }

  /** A set of exactly the stored pids has as many elements as the table at most, and that many when full. */
  lemma HeldSize(k: Table, held: set<Pid>)
    requires NoRepeats(k)
    requires forall p :: p in held <==> Holds(k, p)
    ensures |held| <= |k|
    ensures |held| == |k| <==> forall s :: 0 <= s < |k| ==> k[s].Some?
  {
    PidsBelowSize(k, |k|);
    forall p ensures p in held <==> p in PidsBelow(k, |k|) {
      PidsBelowHolds(k, |k|, p);
    }
    assert held == PidsBelow(k, |k|);
  }
}
