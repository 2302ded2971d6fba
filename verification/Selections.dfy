/** What it means that one sequence is the elements of another for which a predicate holds, in order: said by places,
    whatever the function that computes it. */
module Selections {
  /** These are the places of `s` at which `p` holds, in order: all of them, and no others. */
  ghost predicate Places<T>(s: seq<T>, p: T -> bool, at: seq<nat>) {
    && (forall k :: 0 <= k < |at| ==> at[k] < |s| && p(s[at[k]]))
    && Increasing(at)
    && (forall i :: 0 <= i < |s| && p(s[i]) ==> i in at)
  }

  predicate Increasing(at: seq<nat>) {
    forall j, k :: 0 <= j < k < |at| ==> at[j] < at[k]
  }

  ghost predicate StandsAt<T>(s: seq<T>, at: seq<nat>, out: seq<T>) {
    |out| == |at| && forall k :: 0 <= k < |at| ==> at[k] < |s| && out[k] == s[at[k]]
  }

  /** `out` is exactly the elements of `s` for which `p` holds, in the order of `s`. */
  ghost predicate Selects<T>(s: seq<T>, p: T -> bool, out: seq<T>) {
    exists at: seq<nat> :: Places(s, p, at) && StandsAt(s, at, out)
  }

  lemma SelectsNothing<T>(p: T -> bool)
    ensures Selects([], p, [])
  {
    assert Places([], p, []) && StandsAt<T>([], [], []);
  }

  lemma PlacesSnoc<T>(s: seq<T>, x: T, p: T -> bool, at: seq<nat>)
    requires Places(s, p, at)
    ensures Places(s + [x], p, if p(x) then at + [|s|] else at)
  {
    var t, r := s + [x], if p(x) then at + [|s|] else at;
    forall i | 0 <= i < |t| && p(t[i]) ensures i in r {
      if i < |s| {
        assert t[i] == s[i] && i in at;
      } else {
        assert r[|at|] == i;
      }
    }
  }

  lemma StandsAtSnoc<T>(s: seq<T>, x: T, at: seq<nat>, out: seq<T>)
    requires StandsAt(s, at, out)
    ensures StandsAt(s + [x], at, out) && StandsAt(s + [x], at + [|s|], out + [x])
  {
  }

  lemma SelectsSnoc<T>(s: seq<T>, x: T, p: T -> bool, out: seq<T>)
    requires Selects(s, p, out)
    ensures Selects(s + [x], p, if p(x) then out + [x] else out)
  {
    var at: seq<nat> :| Places(s, p, at) && StandsAt(s, at, out);
    PlacesSnoc(s, x, p, at);
    StandsAtSnoc(s, x, at, out);
  }

  lemma PlacesHave<T>(s: seq<T>, p: T -> bool, at: seq<nat>, i: nat)
    requires Places(s, p, at)
    ensures i in at <==> i < |s| && p(s[i])
  {
  }

  /** There is only one selection. */
  lemma SelectsOne<T>(s: seq<T>, p: T -> bool, a: seq<T>, b: seq<T>)
    requires Selects(s, p, a) && Selects(s, p, b)
    ensures a == b
  {
    var x: seq<nat> :| Places(s, p, x) && StandsAt(s, x, a);
    var y: seq<nat> :| Places(s, p, y) && StandsAt(s, y, b);
    forall i: nat ensures i in x <==> i in y {
      PlacesHave(s, p, x, i);
      PlacesHave(s, p, y, i);
    }
    SamePlaces(x, y);
  }

  lemma InTail(x: seq<nat>, i: nat)
    requires x != [] && Increasing(x)
    ensures i in x[1..] <==> i in x && i != x[0]
  {
  }

  lemma FirstIsLeast(x: seq<nat>, i: nat)
    requires i in x && Increasing(x)
    ensures x[0] <= i
  {
  }

  lemma {:induction false} SamePlaces(x: seq<nat>, y: seq<nat>)
    requires Increasing(x) && Increasing(y)
    requires forall i: nat :: i in x <==> i in y
    ensures x == y
  {
    assert |x| > 0 ==> x[0] in y;
    assert |y| > 0 ==> y[0] in x;
    if x != [] {
      FirstIsLeast(x, y[0]);
      FirstIsLeast(y, x[0]);
      forall i: nat ensures i in x[1..] <==> i in y[1..] {
        InTail(x, i);
        InTail(y, i);
      }
      SamePlaces(x[1..], y[1..]);
      assert x == [x[0]] + x[1..] && y == [y[0]] + y[1..];
    }
  }

  /** The elements selected are those for which the predicate holds, each as often as it was there. */
  lemma SelectsMembers<T>(s: seq<T>, p: T -> bool, out: seq<T>, x: T)
    requires Selects(s, p, out)
    ensures x in out <==> x in s && p(x)
  {
    var at: seq<nat> :| Places(s, p, at) && StandsAt(s, at, out);
    if x in s && p(x) {
      var i :| 0 <= i < |s| && s[i] == x;
      var k :| 0 <= k < |at| && at[k] == i;
      assert out[k] == x;
    }
  }
}
