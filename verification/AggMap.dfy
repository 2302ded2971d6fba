/** The userspace side of the aggregation map, run alone: iterate with "next key", print, delete. The map is its
    key order as the kernel iterates it. */
module AggMap {
  import opened Wrappers
  import opened Selections

  const MAX_DELETIONS: nat := 256

  /** Event types start at 10, so the all-zero key an iteration starts from is never stored. */
  datatype Key = Key(pid: nat, eventType: nat, detail: string)

  const ZERO_KEY := Key(0, 0, "")

  datatype Elem = Elem(key: Key, count: nat)

  predicate DistinctKeys(s: seq<Elem>) {
    forall i, j :: 0 <= i < j < |s| ==> s[i].key != s[j].key
  }

  predicate ValidKeys(s: seq<Elem>) {
    DistinctKeys(s) && forall e :: e in s ==> e.key.eventType >= 10
  }

  /** Where a key sits in iteration order. */
  function IndexOf(s: seq<Elem>, key: Key): (r: Option<nat>)
    ensures r.Some? ==> r.value < |s| && s[r.value].key == key
    ensures r.None? ==> forall e :: e in s ==> e.key != key
  {
    if s == [] then None
    else if s[0].key == key then Some(0)
    else match IndexOf(s[1..], key)
      case None => None
      case Some(i) => Some(i + 1)
  }

  /** Where an iteration standing at `key` goes on: after it, or at the start when `key` is not in the map. */
  function Cursor(s: seq<Elem>, key: Key): (c: nat)
    ensures c <= |s|
  {
    match IndexOf(s, key) case None => 0 case Some(i) => i + 1
  }

  function NextKey(s: seq<Elem>, key: Key): Option<Key> {
    var c := Cursor(s, key);
    if c < |s| then Some(s[c].key) else None
  }

  function Skip(s: seq<Elem>, n: nat): seq<Elem> {
    if n < |s| then s[n..] else []
  }

  function Delete(s: seq<Elem>, key: Key): seq<Elem> {
    match IndexOf(s, key)
    case None => s
    case Some(i) => s[..i] + s[i + 1..]
  }

  function Positive(s: seq<Elem>): seq<Elem> {
    if s == [] then [] else (if s[0].count > 0 then [s[0]] else []) + Positive(s[1..])
  }

  function Zeros(s: seq<Elem>): seq<Elem> {
    if s == [] then [] else (if s[0].count > 0 then [] else [s[0]]) + Zeros(s[1..])
  }

  function OfPid(s: seq<Elem>, pid: nat): (r: seq<Elem>)
    ensures forall e :: e in r ==> e in s && e.key.pid == pid
  {
    if s == [] then [] else (if s[0].key.pid == pid then [s[0]] else []) + OfPid(s[1..], pid)
  }

  /** What stays when the first `n` elements of `pid` are deleted. */
  function DropFirst(s: seq<Elem>, pid: nat, n: nat): seq<Elem> {
    if s == [] || n == 0 then s
    else if s[0].key.pid == pid then DropFirst(s[1..], pid, n - 1)
    else [s[0]] + DropFirst(s[1..], pid, n)
  }

  function Total(s: seq<Elem>): nat {
    if s == [] then 0 else s[0].count + Total(s[1..])
  }

  // ----- sequence algebra

  lemma {:induction false} PositiveAppend(a: seq<Elem>, b: seq<Elem>)
    ensures Positive(a + b) == Positive(a) + Positive(b)
  {
    if a == [] {
      assert a + b == b;
    } else {
      assert (a + b)[1..] == a[1..] + b;
      PositiveAppend(a[1..], b);
      var h, x, y := if a[0].count > 0 then [a[0]] else [], Positive(a[1..]), Positive(b);
      assert h + (x + y) == h + x + y;
    }
  }

  lemma {:induction false} AllZero(s: seq<Elem>)
    requires forall e :: e in s ==> e.count == 0
    ensures Positive(s) == [] && Zeros(s) == s
  {
    if s != [] {
      AllZero(s[1..]);
      assert s == [s[0]] + s[1..];
    }
  }

  lemma {:induction false} ZerosAppend(a: seq<Elem>, b: seq<Elem>)
    ensures Zeros(a + b) == Zeros(a) + Zeros(b)
  {
    if a == [] {
      assert a + b == b;
    } else {
      assert (a + b)[1..] == a[1..] + b;
      ZerosAppend(a[1..], b);
      var h, x, y := if a[0].count > 0 then [] else [a[0]], Zeros(a[1..]), Zeros(b);
      assert h + (x + y) == h + x + y;
    }
  }

  lemma {:induction false} OfPidAppend(a: seq<Elem>, b: seq<Elem>, pid: nat)
    ensures OfPid(a + b, pid) == OfPid(a, pid) + OfPid(b, pid)
  {
    if a == [] {
      assert a + b == b;
    } else {
      assert (a + b)[1..] == a[1..] + b;
      OfPidAppend(a[1..], b, pid);
      var h, x, y := if a[0].key.pid == pid then [a[0]] else [], OfPid(a[1..], pid), OfPid(b, pid);
      assert h + (x + y) == h + x + y;
    }
  }

  function CountsMore(): Elem -> bool {
    (e: Elem) => e.count > 0
  }

  function CountsNothing(): Elem -> bool {
    (e: Elem) => e.count == 0
  }

  function IsOf(pid: nat): Elem -> bool {
    (e: Elem) => e.key.pid == pid
  }

  /** The elements that count and the elements that do not, each in order. */
  lemma {:induction false} SplitByCount(s: seq<Elem>)
    ensures Selects(s, CountsMore(), Positive(s)) && Selects(s, CountsNothing(), Zeros(s))
  {
    if s == [] {
      SelectsNothing(CountsMore());
      SelectsNothing(CountsNothing());
    } else {
      var init, last := s[..|s| - 1], s[|s| - 1];
      assert s == init + [last];
      SplitByCount(init);
      SelectsSnoc(init, last, CountsMore(), Positive(init));
      SelectsSnoc(init, last, CountsNothing(), Zeros(init));
      SplitSnoc(init, last);
    }
  }

  lemma SplitSnoc(s: seq<Elem>, e: Elem)
    ensures Positive(s + [e]) == if e.count > 0 then Positive(s) + [e] else Positive(s)
    ensures Zeros(s + [e]) == if e.count > 0 then Zeros(s) else Zeros(s) + [e]
  {
    PositiveAppend(s, [e]);
    ZerosAppend(s, [e]);
    assert Positive(s) + [] == Positive(s) && Zeros(s) + [] == Zeros(s);
  }

  /** The elements of the pid, in order. */
  lemma {:induction false} OfPidSelects(s: seq<Elem>, pid: nat)
    ensures Selects(s, IsOf(pid), OfPid(s, pid))
  {
    if s == [] {
      SelectsNothing(IsOf(pid));
    } else {
      var init, last := s[..|s| - 1], s[|s| - 1];
      assert s == init + [last];
      OfPidSelects(init, pid);
      SelectsSnoc(init, last, IsOf(pid), OfPid(init, pid));
      OfPidSnoc(init, last, pid);
    }
  }

  lemma OfPidSnoc(s: seq<Elem>, e: Elem, pid: nat)
    ensures OfPid(s + [e], pid) == if e.key.pid == pid then OfPid(s, pid) + [e] else OfPid(s, pid)
  {
    OfPidAppend(s, [e], pid);
    assert OfPid(s, pid) + [] == OfPid(s, pid);
  }

  lemma {:induction false} TotalAppend(a: seq<Elem>, b: seq<Elem>)
    ensures Total(a + b) == Total(a) + Total(b)
  {
    if a == [] {
      assert a + b == b;
    } else {
      assert (a + b)[1..] == a[1..] + b;
      TotalAppend(a[1..], b);
    }
  }

  lemma {:induction false} IndexAt(s: seq<Elem>, i: nat)
    requires i < |s| && DistinctKeys(s)
    ensures IndexOf(s, s[i].key) == Some(i)
  {
    if i > 0 {
      assert s[0].key != s[i].key;
      IndexAt(s[1..], i - 1);
    }
  }

  /** A flush of the whole map loses nothing and keeps nothing that counts: what it prints is everything the map
      counted, and what it leaves counts for nothing. */
  lemma {:induction false} FlushPrintsTotal(s: seq<Elem>)
    ensures Total(Positive(s)) == Total(s) && Total(Zeros(s)) == 0
  {
    if s != [] {
      FlushPrintsTotal(s[1..]);
      TotalAppend(if s[0].count > 0 then [s[0]] else [], Positive(s[1..]));
      TotalAppend(if s[0].count > 0 then [] else [s[0]], Zeros(s[1..]));
    }
  }

  lemma TotalCons(e: Elem, s: seq<Elem>)
    ensures Total([e] + s) == e.count + Total(s)
  {
    assert ([e] + s)[1..] == s;
  }

  lemma DropFirstCons(e: Elem, s: seq<Elem>, pid: nat, n: nat)
    requires n > 0
    ensures DropFirst([e] + s, pid, n) ==
      if e.key.pid == pid then DropFirst(s, pid, n - 1) else [e] + DropFirst(s, pid, n)
  {
    assert ([e] + s)[1..] == s;
  }

  lemma OfPidCons(e: Elem, s: seq<Elem>, pid: nat)
    ensures OfPid([e] + s, pid) == if e.key.pid == pid then [e] + OfPid(s, pid) else OfPid(s, pid)
  {
    assert ([e] + s)[1..] == s;
    assert [] + OfPid(s, pid) == OfPid(s, pid);
  }

  /** Of the pid, dropping its first `n` elements leaves the others in order. */
  lemma {:induction false} DropFirstLeavesOwn(s: seq<Elem>, pid: nat, n: nat)
    ensures OfPid(DropFirst(s, pid, n), pid) == Skip(OfPid(s, pid), n)
  {
    if n == 0 {
      SkipNone(OfPid(s, pid));
    } else if s != [] {
      DropFirstLeavesOwn(s[1..], pid, n - 1);
      DropFirstLeavesOwn(s[1..], pid, n);
      LeavesOwnCons(s[0], s[1..], pid, n);
      assert s == [s[0]] + s[1..];
    }
  }

  lemma LeavesOwnCons(e: Elem, s: seq<Elem>, pid: nat, n: nat)
    requires n > 0
    requires OfPid(DropFirst(s, pid, n - 1), pid) == Skip(OfPid(s, pid), n - 1)
    requires OfPid(DropFirst(s, pid, n), pid) == Skip(OfPid(s, pid), n)
    ensures OfPid(DropFirst([e] + s, pid, n), pid) == Skip(OfPid([e] + s, pid), n)
  {
    DropFirstCons(e, s, pid, n);
    OfPidCons(e, s, pid);
    if e.key.pid == pid {
      SkipNext(e, OfPid(s, pid), n);
    } else {
      OfPidCons(e, DropFirst(s, pid, n), pid);
    }
  }

  lemma SkipNone(s: seq<Elem>)
    ensures Skip(s, 0) == s
  {
  }

  lemma SkipNext(e: Elem, s: seq<Elem>, n: nat)
    requires n > 0
    ensures Skip([e] + s, n) == Skip(s, n - 1)
  {
  }

  /** Of every other pid it leaves all. */
  lemma {:induction false} DropFirstLeavesOthers(s: seq<Elem>, pid: nat, n: nat, other: nat)
    requires other != pid
    ensures OfPid(DropFirst(s, pid, n), other) == OfPid(s, other)
  {
    if s != [] && n > 0 {
      DropFirstLeavesOthers(s[1..], pid, n - 1, other);
      DropFirstLeavesOthers(s[1..], pid, n, other);
      LeavesOthersCons(s[0], s[1..], pid, n, other);
      assert s == [s[0]] + s[1..];
    }
  }

  lemma LeavesOthersCons(e: Elem, s: seq<Elem>, pid: nat, n: nat, other: nat)
    requires n > 0 && other != pid
    requires OfPid(DropFirst(s, pid, n - 1), other) == OfPid(s, other) == OfPid(DropFirst(s, pid, n), other)
    ensures OfPid(DropFirst([e] + s, pid, n), other) == OfPid([e] + s, other)
  {
    DropFirstCons(e, s, pid, n);
    OfPidCons(e, s, other);
    OfPidCons(e, DropFirst(s, pid, n), other);
  }

  ghost predicate TotalsMatch(s: seq<Elem>, pid: nat, n: nat) {
    Total(DropFirst(s, pid, n)) + Total(OfPid(s, pid)) == Total(s) + Total(Skip(OfPid(s, pid), n))
  }

  lemma TotalsCons(e: Elem, s: seq<Elem>, pid: nat, n: nat)
    requires n > 0 && TotalsMatch(s, pid, n - 1) && TotalsMatch(s, pid, n)
    ensures TotalsMatch([e] + s, pid, n)
  {
    DropFirstCons(e, s, pid, n);
    OfPidCons(e, s, pid);
    TotalCons(e, s);
    if e.key.pid == pid {
      SkipNext(e, OfPid(s, pid), n);
      TotalCons(e, OfPid(s, pid));
    } else {
      TotalCons(e, DropFirst(s, pid, n));
    }
  }

  lemma TotalsOfNone(s: seq<Elem>, pid: nat, n: nat)
    requires s == [] || n == 0
    ensures TotalsMatch(s, pid, n)
  {
    SkipNone(OfPid(s, pid));
  }

  lemma {:induction false} TotalsMatchAlways(s: seq<Elem>, pid: nat, n: nat)
    ensures TotalsMatch(s, pid, n)
  {
    if s == [] || n == 0 {
      TotalsOfNone(s, pid, n);
    } else {
      TotalsMatchAlways(s[1..], pid, n - 1);
      TotalsMatchAlways(s[1..], pid, n);
      assert s == [s[0]] + s[1..];
      TotalsCons(s[0], s[1..], pid, n);
    }
  }

  /** What an exit flush of `pid` prints and yet leaves in the map: the counts of the elements it leaves. */
  lemma DropFirstTotal(s: seq<Elem>, pid: nat, n: nat)
    ensures Total(DropFirst(s, pid, n)) + Total(OfPid(s, pid)) == Total(s) + Total(Skip(OfPid(s, pid), n))
  {
    TotalsMatchAlways(s, pid, n);
  }

  lemma {:induction false} PositiveTotals(s: seq<Elem>)
    requires forall e :: e in s ==> e.count > 0
    ensures Positive(s) == s && (Total(s) == 0 <==> s == [])
  {
    if s != [] {
      PositiveTotals(s[1..]);
      assert s == [s[0]] + s[1..];
    }
  }

  /** An exit flush counts nothing twice exactly when the pid has at most 256 keys. */
  lemma ExitFlushExactIff(s: seq<Elem>, pid: nat)
    requires forall e :: e in s ==> e.count > 0
    ensures Total(Positive(OfPid(s, pid))) + Total(DropFirst(s, pid, MAX_DELETIONS)) == Total(s)
            <==> |OfPid(s, pid)| <= MAX_DELETIONS
  {
    var own := OfPid(s, pid);
    PositiveTotals(own);
    DropFirstTotal(s, pid, MAX_DELETIONS);
    PositiveTotals(Skip(own, MAX_DELETIONS));
  }

  /** `n` keys of one pid, each counting one event. */
  function ManyKeys(n: nat): seq<Elem> {
    if n == 0 then [] else ManyKeys(n - 1) + [Elem(Key(1, 9 + n, ""), 1)]
  }

  lemma {:induction false} ManyKeysAre(n: nat)
    ensures |ManyKeys(n)| == n && forall i :: 0 <= i < n ==> ManyKeys(n)[i] == Elem(Key(1, 10 + i, ""), 1)
  {
    if n > 0 {
      ManyKeysAre(n - 1);
    }
  }

  lemma {:induction false} AllOfPid(s: seq<Elem>, pid: nat)
    requires forall e :: e in s ==> e.key.pid == pid
    ensures OfPid(s, pid) == s
  {
    if s != [] {
      assert s == [s[0]] + s[1..];
      AllOfPid(s[1..], pid);
    }
  }

  /** With more than 256 keys of one pid an exit flush counts events twice. */
  lemma ExitFlushCanRepeat(n: nat)
    requires n > MAX_DELETIONS
    ensures var s := ManyKeys(n);
      Total(Positive(OfPid(s, 1))) + Total(DropFirst(s, 1, MAX_DELETIONS)) != Total(s)
  {
    ManyKeysAre(n);
    AllOfPid(ManyKeys(n), 1);
    ExitFlushExactIff(ManyKeys(n), 1);
  }

  // ----- the flush loops

  class EventMap {
    var elems: seq<Elem>

    ghost predicate Valid()
      reads this
    {
      ValidKeys(elems)
    }

    constructor (elems: seq<Elem>)
      requires ValidKeys(elems)
      ensures Valid() && this.elems == elems
    {
      this.elems := elems;
    }

    /** Flushes the whole map. The kernel's "next key" starts over whenever its key was just deleted, yet the loop
        ends, having printed every element that counts once, in order. */
    method FlushAggMap() returns (printed: seq<Elem>)
      requires Valid()
      modifies this
      ensures Valid()
      ensures printed == Positive(old(elems)) && elems == Zeros(old(elems))
    {
      printed := [];
      var key := ZERO_KEY;
      while NextKey(elems, key).Some?
        invariant Valid()
        invariant forall e :: e in elems[..Cursor(elems, key)] ==> e.count == 0
        invariant printed + Positive(elems) == Positive(old(elems))
        invariant Zeros(elems) == Zeros(old(elems))
        decreases |elems|, |elems| - Cursor(elems, key)
      {
        var nextKey := NextKey(elems, key).value;
        ghost var i := Cursor(elems, key);
        IndexAt(elems, i);
        var val := elems[IndexOf(elems, nextKey).value];
        if val.count > 0 {
          DeletePositive(elems, i);
          ghost var rest := Positive(Delete(elems, nextKey));
          assert printed + ([val] + rest) == printed + [val] + rest;
          printed := printed + [val];
          elems := Delete(elems, nextKey);
        }
        key := nextKey;
      }
      AllZero(elems);
    }

    /** Flushes one pid at its exit: prints all its elements that count, then deletes at most 256 of them. */
    method FlushPidFromAggMap(pid: nat) returns (printed: seq<Elem>)
      requires Valid()
      modifies this
      ensures Valid()
      ensures printed == Positive(OfPid(old(elems), pid)) && elems == DropFirst(old(elems), pid, MAX_DELETIONS)
    {
      printed := [];
      var key := ZERO_KEY;
      var toDelete: seq<Key> := [];
      while NextKey(elems, key).Some?
        invariant elems == old(elems)
        invariant printed == Positive(OfPid(elems[..Cursor(elems, key)], pid))
        invariant toDelete == Victims(elems[..Cursor(elems, key)], pid, MAX_DELETIONS)
        decreases |elems| - Cursor(elems, key)
      {
        var nextKey := NextKey(elems, key).value;
        ghost var i := Cursor(elems, key);
        IndexAt(elems, i);
        OwnStep(elems, i, pid);
        VictimsAppend(elems[..i], elems[i], pid, MAX_DELETIONS);
        if nextKey.pid == pid {
          var val := elems[IndexOf(elems, nextKey).value];
          if val.count > 0 {
            printed := printed + [val];
          }
          if |toDelete| < MAX_DELETIONS {
            toDelete := toDelete + [nextKey];
          }
        }
        key := nextKey;
      }
      assert elems[..Cursor(elems, key)] == elems;
      DeleteVictims(elems, pid, MAX_DELETIONS);
      DeleteKeys(toDelete);
    }

    method DeleteKeys(toDelete: seq<Key>)
      requires Valid()
      modifies this
      ensures Valid()
      ensures elems == DeleteAll(old(elems), toDelete)
    {
      var d := 0;
      assert toDelete[0..] == toDelete;
      while d < |toDelete|
        invariant d <= |toDelete|
        invariant Valid()
        invariant DeleteAll(elems, toDelete[d..]) == DeleteAll(old(elems), toDelete)
      {
        assert toDelete[d..][1..] == toDelete[d + 1..];
        DeleteValid(elems, toDelete[d]);
        elems := Delete(elems, toDelete[d]);
        d := d + 1;
      }
    }
  }

  lemma DeletePositive(s: seq<Elem>, i: nat)
    requires i < |s| && s[i].count > 0 && ValidKeys(s)
    requires forall e :: e in s[..i] ==> e.count == 0
    ensures var s' := Delete(s, s[i].key);
      && ValidKeys(s') && |s'| < |s| && Cursor(s', s[i].key) == 0
      && Positive(s) == [s[i]] + Positive(s') && Zeros(s) == Zeros(s')
  {
    IndexAt(s, i);
    DeleteValid(s, s[i].key);
    TakeOutPositive(s[..i], s[i], s[i + 1..]);
    assert s == s[..i] + ([s[i]] + s[i + 1..]);
  }

  lemma TakeOutPositive(a: seq<Elem>, e: Elem, b: seq<Elem>)
    requires e.count > 0 && forall z :: z in a ==> z.count == 0
    ensures Positive(a + ([e] + b)) == [e] + Positive(a + b)
    ensures Zeros(a + ([e] + b)) == Zeros(a + b)
  {
    AllZero(a);
    PositiveAppend(a, [e] + b);
    PositiveAppend(a, b);
    ZerosAppend(a, [e] + b);
    ZerosAppend(a, b);
    assert ([e] + b)[1..] == b;
  }

  lemma DeleteValid(s: seq<Elem>, key: Key)
    requires ValidKeys(s)
    ensures ValidKeys(Delete(s, key)) && IndexOf(Delete(s, key), key) == None
  {
    var s' := Delete(s, key);
    forall e | e in s' ensures e.key.eventType >= 10 && e.key != key {
      assert e in s;
    }
  }

  /** The first `n` keys of a pid: the ones an exit flush has room to delete. */
  function Victims(s: seq<Elem>, pid: nat, n: nat): seq<Key> {
    if s == [] || n == 0 then []
    else if s[0].key.pid == pid then [s[0].key] + Victims(s[1..], pid, n - 1)
    else Victims(s[1..], pid, n)
  }

  lemma {:induction false} VictimsAppend(s: seq<Elem>, e: Elem, pid: nat, n: nat)
    ensures |Victims(s, pid, n)| <= n
    ensures Victims(s + [e], pid, n) ==
      Victims(s, pid, n) + if e.key.pid == pid && |Victims(s, pid, n)| < n then [e.key] else []
  {
    if s == [] {
      assert s + [e] == [e];
    } else if n > 0 {
      assert (s + [e])[1..] == s[1..] + [e];
      VictimsAppend(s[1..], e, pid, if s[0].key.pid == pid then n - 1 else n);
    }
  }

  function DeleteAll(s: seq<Elem>, keys: seq<Key>): seq<Elem> {
    if keys == [] then s else DeleteAll(Delete(s, keys[0]), keys[1..])
  }

  lemma OwnStep(s: seq<Elem>, i: nat, pid: nat)
    requires i < |s|
    ensures s[..i + 1] == s[..i] + [s[i]]
    ensures Positive(OfPid(s[..i + 1], pid)) ==
      Positive(OfPid(s[..i], pid)) + if s[i].key.pid == pid && s[i].count > 0 then [s[i]] else []
  {
    var own, e := OfPid(s[..i], pid), s[i];
    assert s[..i + 1] == s[..i] + [e];
    OfPidAppend(s[..i], [e], pid);
    if e.key.pid == pid {
      assert OfPid([e], pid) == [e];
      PositiveAppend(own, [e]);
      assert Positive([e]) == if e.count > 0 then [e] else [];
    } else {
      assert own + [] == own;
    }
  }

  lemma {:induction false} VictimsFrom(s: seq<Elem>, pid: nat, n: nat, k: Key)
    requires k in Victims(s, pid, n)
    ensures exists e :: e in s && e.key == k
  {
    if s[0].key == k {
      assert s[0] in s;
    } else {
      VictimsFrom(s[1..], pid, if s[0].key.pid == pid then n - 1 else n, k);
      var e :| e in s[1..] && e.key == k;
      assert e in s;
    }
  }

  lemma DeleteAllCons(s: seq<Elem>, k: Key, rest: seq<Key>)
    ensures DeleteAll(s, [k] + rest) == DeleteAll(Delete(s, k), rest)
  {
    assert ([k] + rest)[1..] == rest;
  }

  lemma DeleteFirst(s: seq<Elem>)
    requires s != []
    ensures Delete(s, s[0].key) == s[1..]
  {
    assert IndexOf(s, s[0].key) == Some(0);
  }

  lemma DeleteVictimsNext(s: seq<Elem>, pid: nat, n: nat)
    requires s != [] && n > 0 && DistinctKeys(s)
    requires DeleteAll(s[1..], Victims(s[1..], pid, n - 1)) == DropFirst(s[1..], pid, n - 1)
    requires DeleteAll(s[1..], Victims(s[1..], pid, n)) == DropFirst(s[1..], pid, n)
    ensures DeleteAll(s, Victims(s, pid, n)) == DropFirst(s, pid, n)
  {
    if s[0].key.pid == pid {
      DeleteAllCons(s, s[0].key, Victims(s[1..], pid, n - 1));
      DeleteFirst(s);
    } else {
      NotAVictim(s, pid, n);
      DeleteAllBehind(s[0], s[1..], Victims(s[1..], pid, n));
      assert s == [s[0]] + s[1..];
    }
  }

  /** Deleting the collected keys one by one is dropping the pid's first elements. */
  lemma {:induction false} DeleteVictims(s: seq<Elem>, pid: nat, n: nat)
    requires DistinctKeys(s)
    ensures DeleteAll(s, Victims(s, pid, n)) == DropFirst(s, pid, n)
  {
    if s != [] && n > 0 {
      DeleteVictims(s[1..], pid, n - 1);
      DeleteVictims(s[1..], pid, n);
      DeleteVictimsNext(s, pid, n);
    }
  }

  lemma NotAVictim(s: seq<Elem>, pid: nat, n: nat)
    requires s != [] && DistinctKeys(s)
    ensures s[0].key !in Victims(s[1..], pid, n)
  {
    if s[0].key in Victims(s[1..], pid, n) {
      VictimsFrom(s[1..], pid, n, s[0].key);
    }
  }

  lemma {:induction false} DeleteAllBehind(e: Elem, s: seq<Elem>, keys: seq<Key>)
    requires e.key !in keys
    ensures DeleteAll([e] + s, keys) == [e] + DeleteAll(s, keys)
  {
    if keys != [] {
      var k := keys[0];
      assert ([e] + s)[1..] == s;
      assert Delete([e] + s, k) == [e] + Delete(s, k);
      DeleteAllBehind(e, Delete(s, k), keys[1..]);
    }
  }
}
