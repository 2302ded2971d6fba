/** The search of a file, read in chunks, for the markers of an embedded SSL library. */
module StreamSearch {
  /** Bytes, written as characters. */
  type Bytes = string

  /** What one `read` gives: at least one byte, no bytes at the end of the file, or an error. */
  datatype Read = Got(bytes: Bytes) | Failed

  const NEEDLES: seq<Bytes> := ["SSL_write", "BoringSSLError", "OPENSSL_internal"]

  // ----- whole-file search

  predicate OccursAt(hay: Bytes, needle: Bytes, i: nat) {
    i + |needle| <= |hay| && hay[i..i + |needle|] == needle
  }

  predicate Occurs(hay: Bytes, needle: Bytes) {
    exists i :: 0 <= i <= |hay| && OccursAt(hay, needle, i)
  }

  predicate AnyOccurs(needles: seq<Bytes>, hay: Bytes) {
    exists k :: 0 <= k < |needles| && Occurs(hay, needles[k])
  }

  /** The bytes read before the end of the file or the first error. */
  function Delivered(stream: seq<Read>): Bytes {
    if stream == [] || stream[0].Failed? || stream[0].bytes == [] then []
    else stream[0].bytes + Delivered(stream[1..])
  }

  // ----- the chunked search

  /** The length of the longest needle, or 1 without needles. */
  function Longest(needles: seq<Bytes>): (r: nat)
    ensures forall n :: n in needles ==> |n| <= r
    ensures needles != [] ==> exists n :: n in needles && |n| == r
  {
    if needles == [] then 1
    else if |needles| == 1 then |needles[0]|
    else
      var rest := Longest(needles[1..]);
      assert forall n :: n in needles ==> n == needles[0] || n in needles[1..];
      if |needles[0]| > rest then assert needles[0] in needles; |needles[0]| else rest
  }

  function Keep(needles: seq<Bytes>): nat {
    if Longest(needles) == 0 then 0 else Longest(needles) - 1
  }

  function Tail(carry: Bytes, keep: nat): Bytes {
    if |carry| > keep then carry[|carry| - keep..] else carry
  }

  /** The outcome of the loop from a carry and the reads still to come. */
  predicate Scan(needles: seq<Bytes>, keep: nat, carry: Bytes, stream: seq<Read>)
    decreases |stream|
  {
    if stream == [] || stream[0].Failed? || stream[0].bytes == [] then false
    else
      var c := carry + stream[0].bytes;
      AnyOccurs(needles, c) || Scan(needles, keep, Tail(c, keep), stream[1..])
  }

  lemma ScanStep(needles: seq<Bytes>, keep: nat, carry: Bytes, stream: seq<Read>, i: nat)
    requires i < |stream|
    ensures Scan(needles, keep, carry, stream[i..]) ==
      if stream[i].Failed? || stream[i].bytes == [] then false
      else
        var c := carry + stream[i].bytes;
        AnyOccurs(needles, c) || Scan(needles, keep, Tail(c, keep), stream[i + 1..])
  {
    assert stream[i..][1..] == stream[i + 1..];
  }

  // ----- the chunked search is the whole-file search

  lemma OccursWider(before: Bytes, hay: Bytes, after: Bytes, needle: Bytes)
    requires Occurs(hay, needle)
    ensures Occurs(before + hay + after, needle)
  {
    var i :| 0 <= i <= |hay| && OccursAt(hay, needle, i);
    assert (before + hay + after)[|before| + i..|before| + i + |needle|] == hay[i..i + |needle|];
    assert OccursAt(before + hay + after, needle, |before| + i);
  }

  lemma SliceBehind(past: Bytes, s: Bytes, j: nat, n: nat)
    requires j + n <= |s|
    ensures (past + s)[|past| + j..|past| + j + n] == s[j..j + n]
  {
  }

  /** A needle that was not there before the chunk starts inside the carry or later. */
  lemma NewOccurrence(past: Bytes, carry: Bytes, chunk: Bytes, needle: Bytes, keep: nat)
    requires !Occurs(past + carry, needle) && |needle| <= keep + 1 && (past == "" || |carry| >= keep)
    ensures Occurs(past + (carry + chunk), needle) <==> Occurs(carry + chunk, needle)
  {
    var hay := past + (carry + chunk);
    if Occurs(carry + chunk, needle) {
      OccursWider(past, carry + chunk, "", needle);
      assert past + (carry + chunk) + "" == hay;
    }
    if Occurs(hay, needle) {
      var i :| 0 <= i <= |hay| && OccursAt(hay, needle, i);
      if i + |needle| <= |past + carry| {
        assert (past + carry)[i..i + |needle|] == hay[i..i + |needle|];
        assert OccursAt(past + carry, needle, i);
      }
      var j := i - |past|;
      SliceBehind(past, carry + chunk, j, |needle|);
      assert OccursAt(carry + chunk, needle, j);
    }
  }

  lemma NewOccurrences(past: Bytes, carry: Bytes, chunk: Bytes, needles: seq<Bytes>, keep: nat)
    requires !AnyOccurs(needles, past + carry) && (past == "" || |carry| >= keep)
    requires forall n :: n in needles ==> |n| <= keep + 1
    ensures AnyOccurs(needles, past + (carry + chunk)) <==> AnyOccurs(needles, carry + chunk)
  {
    forall k | 0 <= k < |needles|
      ensures Occurs(past + (carry + chunk), needles[k]) <==> Occurs(carry + chunk, needles[k])
    {
      assert needles[k] in needles;
      NewOccurrence(past, carry, chunk, needles[k], keep);
    }
  }

  lemma AnyOccursWider(before: Bytes, hay: Bytes, after: Bytes, needles: seq<Bytes>)
    requires AnyOccurs(needles, hay)
    ensures AnyOccurs(needles, before + hay + after)
  {
    var k :| 0 <= k < |needles| && Occurs(hay, needles[k]);
    OccursWider(before, hay, after, needles[k]);
  }

  /** With `past` already dropped and no needle seen so far, the rest of the loop answers for the whole file. */
  lemma {:induction false} ScanFrom(needles: seq<Bytes>, keep: nat, past: Bytes, carry: Bytes, stream: seq<Read>)
    requires forall n :: n in needles ==> |n| <= keep + 1
    requires !AnyOccurs(needles, past + carry) && (past == "" || |carry| >= keep)
    ensures Scan(needles, keep, carry, stream) <==> AnyOccurs(needles, past + carry + Delivered(stream))
    decreases |stream|
  {
    if stream == [] || stream[0].Failed? || stream[0].bytes == [] {
      assert past + carry + [] == past + carry;
    } else {
      var chunk, rest := stream[0].bytes, Delivered(stream[1..]);
      var c := carry + chunk;
      NewOccurrences(past, carry, chunk, needles, keep);
      assert past + carry + Delivered(stream) == past + c + rest;
      if AnyOccurs(needles, c) {
        AnyOccursWider(past, c, rest, needles);
      } else {
        var dropped := c[..|c| - |Tail(c, keep)|];
        assert past + dropped + Tail(c, keep) == past + c;
        ScanFrom(needles, keep, past + dropped, Tail(c, keep), stream[1..]);
      }
    }
  }

  /** However the file is split into reads, the loop answers yes exactly when a needle occurs somewhere in the bytes
      read, whether or not it crosses a boundary. */
  lemma ScanIsWholeFileSearch(needles: seq<Bytes>, stream: seq<Read>)
    requires "" !in needles
    ensures Scan(needles, Keep(needles), "", stream) <==> AnyOccurs(needles, Delivered(stream))
  {
    forall k | 0 <= k < |needles| ensures !Occurs("", needles[k]) {
      assert needles[k] in needles;
    }
    assert "" + "" + Delivered(stream) == Delivered(stream);
    ScanFrom(needles, Keep(needles), "", "", stream);
  }

  /** Keeping one byte less would not do: cut a needle before its last byte, and it is missed. */
  lemma KeepIsLeast(needle: Bytes, keep: nat)
    requires |needle| >= 2
    ensures var cut := [Got(needle[..|needle| - 1]), Got(needle[|needle| - 1..])];
      && Delivered(cut) == needle && AnyOccurs([needle], Delivered(cut))
      && (Scan([needle], keep, "", cut) <==> keep >= Keep([needle]))
  {
    var first, last := needle[..|needle| - 1], needle[|needle| - 1..];
    var cut := [Got(first), Got(last)];
    assert cut[1..] == [Got(last)] && cut[1..][1..] == [];
    assert Delivered([Got(last)]) == last + Delivered([Got(last)][1..]) == last;
    assert Delivered(cut) == first + last == needle;
    assert OccursAt(needle, needle, 0);
    assert [needle][0] == needle;
    assert "" + first == first;
    if keep >= Keep([needle]) {
      assert first + last == needle;
      assert Tail(first, keep) == first;
    } else {
      var short := Tail(first, keep) + last;
      assert |short| < |needle|;
      assert !AnyOccurs([needle], short) && !AnyOccurs([needle], "" + first);
      assert !Scan([needle], keep, Tail(short, keep), []);
      assert !Scan([needle], keep, Tail(first, keep), cut[1..]);
    }
  }

  // ----- the loop

  /** However the file is split into reads, the answer is yes exactly when a needle occurs somewhere in the bytes read
      before the end or an error. */
  method SearchChunks(needles: seq<Bytes>, stream: seq<Read>) returns (found: bool)
    requires "" !in needles
    ensures found <==> AnyOccurs(needles, Delivered(stream))
  {
    var carry := "";
    var keep := Keep(needles);
    ScanIsWholeFileSearch(needles, stream);
    ghost var answer := Scan(needles, keep, carry, stream);
    assert stream[0..] == stream;
    var i := 0;
    while i < |stream|
      invariant i <= |stream|
      invariant Scan(needles, keep, carry, stream[i..]) == answer
    {
      ScanStep(needles, keep, carry, stream, i);
      if stream[i].Failed? {
        return false;
      }
      if stream[i].bytes == [] {
        break;
      }
      carry := carry + stream[i].bytes;
      if AnyOccurs(needles, carry) {
        return true;
      }
      carry := Tail(carry, keep);
      i := i + 1;
    }
    return false;
  }

  /** The search for the markers of OpenSSL and BoringSSL in a file, if it can be opened. */
  method BinaryEmbedsSsl(canOpen: bool, stream: seq<Read>) returns (found: bool)
    ensures found <==> canOpen && AnyOccurs(NEEDLES, Delivered(stream))
  {
    if !canOpen {
      return false;
    }
    found := SearchChunks(NEEDLES, stream);
  }
}
