/** The minimal JSON escaper, which composes C strings into a fixed buffer. */
module JsonMinimal {
  import opened Wrappers
  import opened Utf8
  import opened JsonEscape

  function MinimalFirst(c: bv8): Bytes {
    if c == BACKSLASH || c == QUOTE then [BACKSLASH, c]
    else if c == 0x0A then [BACKSLASH, 0x6E]
    else if c == 0x09 then [BACKSLASH, 0x74]
    else [c]
  }

  function Minimal(s: Bytes): (r: Bytes)
    ensures |s| <= |r|
  {
    if s == [] then [] else MinimalFirst(s[0]) + Minimal(s[1..])
  }

  /** How many bytes of `s` are escaped into a buffer that has `room` bytes before its last two: the loop stops at
      the first moment no room is left. */
  function Consumed(s: Bytes, room: int): (n: nat)
    ensures n <= |s|
  {
    if s == [] || room <= 0 then 0 else 1 + Consumed(s[1..], room - |MinimalFirst(s[0])|)
  }

  lemma {:induction false} MinimalAppend(a: Bytes, c: bv8)
    ensures Minimal(a + [c]) == Minimal(a) + MinimalFirst(c)
  {
    if a == [] {
      assert a + [c] == [c];
    } else {
      assert (a + [c])[1..] == a[1..] + [c];
      MinimalAppend(a[1..], c);
    }
  }

  /** The escaped prefix always fits with one byte to spare for the terminator, and it stops short of the whole
      string only when the buffer is filled to its last two bytes. */
  lemma {:induction false} ConsumedFits(s: Bytes, room: int)
    requires room >= 0
    ensures var r := Minimal(s[..Consumed(s, room)]);
      |r| <= room + 1 && (Consumed(s, room) < |s| ==> room <= |r|)
  {
    if s != [] && room > 0 {
      var k, n := |MinimalFirst(s[0])|, Consumed(s[1..], room - |MinimalFirst(s[0])|);
      assert s[..n + 1][1..] == s[1..][..n];
      if room >= k {
        ConsumedFits(s[1..], room - k);
      }
    }
  }

  /** What the minimal escaper writes reads back as the prefix it consumed. */
  lemma {:induction false} DecodeMinimal(s: Bytes, u: bv8 -> Bytes)
    ensures Decode(Minimal(s), u) == Some(s)
  {
    if s != [] {
      var rest := Minimal(s[1..]);
      DecodeMinimal(s[1..], u);
      if |MinimalFirst(s[0])| == 2 {
        assert Minimal(s)[2..] == rest;
      } else {
        assert Minimal(s)[1..] == rest;
      }
      assert s == [s[0]] + s[1..];
    }
  }

  predicate NoRawControls(s: Bytes) {
    s == [] || ((s[0] >= 0x20 || s[0] == 0x0A || s[0] == 0x09) && NoRawControls(s[1..]))
  }

  predicate AllHigh(s: Bytes) {
    s == [] || (s[0] >= 0x80 && AllHigh(s[1..]))
  }

  lemma HighFirst(c: bv8)
    ensures MinimalFirst(c)[0] >= 0x80 <==> c >= 0x80
    ensures c >= 0x80 ==> MinimalFirst(c) == [c]
  {
  }

  lemma TakeHead(s: Bytes, n: nat)
    requires 0 < n <= |s|
    ensures s[..n] == [s[0]] + s[1..][..n - 1] && s[..n][1..] == s[1..][..n - 1] && s[1..][n - 1..] == s[n..]
  {
  }

  lemma HighNext(s: Bytes)
    requires s != [] && s[0] >= 0x80
    ensures Minimal(s) == [s[0]] + Minimal(s[1..])
  {
    HighFirst(s[0]);
  }

  /** High bytes are copied, and only high bytes come out high: both strings start with the same ones. */
  lemma {:induction false} MinimalHigh(s: Bytes, n: nat)
    requires n <= |Minimal(s)| && AllHigh(Minimal(s)[..n])
    ensures n <= |s| && Minimal(s)[..n] == s[..n]
  {
    if n > 0 {
      var out, rest := Minimal(s), Minimal(s[1..]);
      assert out[..n][0] == out[0] == MinimalFirst(s[0])[0];
      HighFirst(s[0]);
      assert out == [s[0]] + rest && out[..n][1..] == rest[..n - 1];
      MinimalHigh(s[1..], n - 1);
      assert s[..n] == [s[0]] + s[1..][..n - 1];
    }
  }

  lemma {:induction false} HighMinimal(s: Bytes, n: nat)
    requires n <= |s| && AllHigh(s[..n])
    ensures Minimal(s) == s[..n] + Minimal(s[n..])
  {
    if n == 0 {
      assert s[0..] == s;
    } else {
      TakeHead(s, n);
      HighNext(s);
      HighMinimal(s[1..], n - 1);
    }
  }

  lemma {:induction false} HighControls(s: Bytes, n: nat)
    requires n <= |s| && AllHigh(s[..n])
    ensures NoRawControls(s) <==> NoRawControls(s[n..])
  {
    if n == 0 {
      assert s[0..] == s;
    } else {
      TakeHead(s, n);
      HighControls(s[1..], n - 1);
    }
  }

  lemma {:induction false} AllHighFrom(s: Bytes)
    requires forall i :: 0 <= i < |s| ==> s[i] >= 0x80
    ensures AllHigh(s)
  {
    if s != [] {
      AllHighFrom(s[1..]);
    }
  }

  /** A character that starts with a high byte is high throughout. */
  lemma CharIsHigh(s: Bytes)
    requires IsUtf8Char(s) && s[0] >= 0x80
    ensures AllHigh(s)
  {
    AllHighFrom(s);
  }

  /** The minimal escaper's output is a legal body if and only if what it escaped is valid UTF-8 with no control
      character but newline and tab: those two it escapes, the others it copies. */
  lemma {:induction false} MinimalIsBodyIff(s: Bytes)
    ensures IsBody(Minimal(s)) <==> IsUtf8(s) && NoRawControls(s)
    decreases |s|, 1
  {
    if s != [] {
      var out, rest := Minimal(s), Minimal(s[1..]);
      if s[0] >= 0x80 {
        MinimalIsBodyIffHigh(s);
      } else {
        MinimalIsBodyIff(s[1..]);
        CharPrefixUnique(s, 1);
        if |MinimalFirst(s[0])| == 2 {
          assert out[2..] == rest;
        } else {
          assert out[1..] == rest && out[0] == s[0];
          CharPrefixUnique(out, 1);
        }
      }
    }
  }

  lemma MinimalIsBodyIffHigh(s: Bytes)
    requires s != [] && s[0] >= 0x80
    ensures IsBody(Minimal(s)) <==> IsUtf8(s) && NoRawControls(s)
    decreases |s|, 0
  {
    var out := Minimal(s);
    assert out[0] == s[0];
    SamePrefix(s);
    var n := CharPrefix(s);
    if n > 0 {
      CharIsHigh(s[..n]);
      HighMinimal(s, n);
      assert out[n..] == Minimal(s[n..]);
      MinimalIsBodyIff(s[n..]);
      HighControls(s, n);
    }
  }

  lemma SamePrefix(s: Bytes)
    requires s != [] && s[0] >= 0x80
    ensures CharPrefix(Minimal(s)) == CharPrefix(s)
  {
    var out := Minimal(s);
    assert out[0] == s[0];
    var n, m := CharPrefix(out), CharPrefix(s);
    if m > 0 {
      CharIsHigh(s[..m]);
      HighMinimal(s, m);
      assert out[..m] == s[..m];
      CharPrefixUnique(out, m);
    }
    if n > 0 {
      CharIsHigh(out[..n]);
      MinimalHigh(s, n);
      CharPrefixUnique(s, n);
    }
  }

  // ----- when the buffer is what cuts

  /** What a buffer of `size` bytes holds before its terminator. */
  function Escaped(src: Bytes, size: nat): Bytes {
    Minimal(src[..Consumed(src, size - 2)])
  }

  lemma {:induction false} MinimalDoubles(s: Bytes)
    ensures |Minimal(s)| <= 2 * |s|
  {
    if s != [] {
      MinimalDoubles(s[1..]);
    }
  }

  /** The whole string is escaped exactly when there is room left before its last byte. */
  lemma {:induction false} ConsumedAllIff(s: Bytes, room: int)
    requires s != []
    ensures Consumed(s, room) == |s| <==> |Minimal(s[..|s| - 1])| < room
  {
    if |s| == 1 {
      assert Consumed(s[1..], room - |MinimalFirst(s[0])|) == 0;
    } else {
      ConsumedAllIff(s[1..], room - |MinimalFirst(s[0])|);
      assert s[..|s| - 1][1..] == s[1..][..|s| - 2];
    }
  }

  /** A buffer with two bytes for each of the string and two more cuts nothing. */
  lemma RoomForAll(src: Bytes, size: nat)
    requires size >= 2 * |src| + 2
    ensures Consumed(src, size - 2) == |src| && Escaped(src, size) == Minimal(src)
  {
    if src != [] {
      MinimalDoubles(src[..|src| - 1]);
      ConsumedAllIff(src, size - 2);
    }
    assert src[..|src|] == src;
  }

  /** `n` is at the end of the text or at the start of a character: not before a continuation byte. */
  predicate IsBoundary(s: Bytes, n: nat)
    requires n <= |s|
  {
    n == |s| || !IsTail(s[n])
  }

  lemma CharParts(s: Bytes, k: nat)
    requires IsUtf8Char(s) && 0 < k < |s|
    ensures IsTail(s[k]) && CharPrefix(s[..k]) == 0
  {
  }

  lemma TakeBehind(s: Bytes, c: nat, n: nat)
    requires c <= n <= |s|
    ensures s[..n][..c] == s[..c] && s[..n][c..] == s[c..][..n - c]
    ensures n < |s| ==> s[n] == s[c..][n - c]
  {
  }

  /** A prefix of valid UTF-8 is valid exactly when it ends at a character boundary. */
  lemma {:induction false} PrefixIsUtf8Iff(s: Bytes, n: nat)
    requires IsUtf8(s) && n <= |s|
    ensures IsUtf8(s[..n]) <==> IsBoundary(s, n)
    decreases |s|
  {
    if s != [] && n > 0 {
      var c := CharPrefix(s);
      if n < c {
        CharParts(s[..c], n);
        assert s[..c][..n] == s[..n];
      } else {
        PrefixIsUtf8Iff(s[c..], n - c);
        TakeBehind(s, c, n);
        CharPrefixUnique(s[..n], c);
      }
    }
  }

  lemma {:induction false} PrefixControls(s: Bytes, n: nat)
    requires n <= |s| && NoRawControls(s)
    ensures NoRawControls(s[..n])
  {
    if n > 0 {
      PrefixControls(s[1..], n - 1);
      assert s[..n][1..] == s[1..][..n - 1];
    }
  }

  /** When `out`, what a buffer of `size` bytes holds of `src`, is a legal body: when the part of the source it was
      read from is valid UTF-8 without raw controls. With two bytes for each of the source and two more, that part is
      the whole source. In any buffer a source of that kind comes out legal exactly when the cut, if there is one, is
      at a character boundary. */
  predicate LegalIff(src: Bytes, size: nat, out: Bytes) {
    && (var read := src[..Consumed(src, size - 2)]; IsBody(out) <==> IsUtf8(read) && NoRawControls(read))
    && (size >= 2 * |src| + 2 ==> (IsBody(out) <==> IsUtf8(src) && NoRawControls(src)))
    && (IsUtf8(src) && NoRawControls(src) ==> (IsBody(out) <==> IsBoundary(src, Consumed(src, size - 2))))
  }

  lemma EscapedIsBodyIff(src: Bytes, size: nat)
    ensures LegalIff(src, size, Escaped(src, size))
  {
    var n := Consumed(src, size - 2);
    MinimalIsBodyIff(src[..n]);
    if size >= 2 * |src| + 2 {
      RoomForAll(src, size);
      assert src[..n] == src;
    }
    if IsUtf8(src) && NoRawControls(src) {
      PrefixIsUtf8Iff(src, n);
      PrefixControls(src, n);
    }
  }

  /** The euro sign in a buffer of three bytes is cut after its first byte. */
  lemma CutCharacterIsIllegal()
    ensures var euro: Bytes := [0xE2, 0x82, 0xAC];
      IsUtf8(euro) && NoRawControls(euro) && Escaped(euro, 3) == [0xE2] && !IsBody(Escaped(euro, 3))
  {
    var euro: Bytes := [0xE2, 0x82, 0xAC];
    assert euro[..3] == euro && IsUtf8Char(euro);
    CharPrefixUnique(euro, 3);
    assert euro[1..] == [0x82, 0xAC];
    assert Consumed(euro, 1) == 1 && euro[..1] == [0xE2];
    assert Minimal([0xE2]) == [0xE2] + Minimal([0xE2][1..]);
    EscapedIsBodyIff(euro, 3);
  }

  /** A control character is copied raw by every buffer with room for it: two bytes hold only the terminator. */
  lemma RawControlIsIllegal(size: nat)
    requires size >= 3
    ensures IsUtf8([0x01]) && !IsBody(Escaped([0x01], size))
  {
    CharPrefixUnique([0x01], 1);
    EscapedIsBodyIff([0x01], size);
  }

  // ----- the loop

  lemma EscapeStep(src: Bytes, i: nat, room: int)
    requires i < |src| && room > 0
    ensures Minimal(src[..i + 1]) == Minimal(src[..i]) + MinimalFirst(src[i])
    ensures Consumed(src[i..], room) == 1 + Consumed(src[i + 1..], room - |MinimalFirst(src[i])|)
  {
    assert src[i..][1..] == src[i + 1..];
    assert src[..i + 1] == src[..i] + [src[i]];
    MinimalAppend(src[..i], src[i]);
  }

  /** Writes one escaped byte at `dst[j]`; answers the position after it. */
  method EscapeByte(c: bv8, dst: array<bv8>, j: nat) returns (next: nat)
    requires j + 2 < dst.Length
    modifies dst
    ensures next == j + |MinimalFirst(c)| && dst[..next] == old(dst[..j]) + MinimalFirst(c)
  {
    if c == BACKSLASH || c == QUOTE {
      dst[j], dst[j + 1] := BACKSLASH, c;
      next := j + 2;
    } else if c == 0x0A {
      dst[j], dst[j + 1] := BACKSLASH, 0x6E;
      next := j + 2;
    } else if c == 0x09 {
      dst[j], dst[j + 1] := BACKSLASH, 0x74;
      next := j + 2;
    } else {
      dst[j] := c;
      next := j + 1;
    }
  }

  /** The loop: as much of `src` as there is room for. */
  method EscapePrefix(src: Bytes, dst: array<bv8>) returns (j: nat)
    requires dst.Length >= 2
    modifies dst
    ensures j < dst.Length && dst[..j] == Escaped(src, dst.Length)
  {
    j := 0;
    var i := 0;
    ghost var cut := Consumed(src, dst.Length - 2);
    assert src[0..] == src;
    while i < |src| && j < dst.Length - 2
      invariant i <= |src| && j <= dst.Length - 1
      invariant dst[..j] == Minimal(src[..i])
      invariant i + Consumed(src[i..], dst.Length - 2 - j) == cut
    {
      EscapeStep(src, i, dst.Length - 2 - j);
      j := EscapeByte(src[i], dst, j);
      i := i + 1;
    }
  }

  /** Escapes the C string `src` (its bytes up to the terminator) into `dst`; answers the length written. */
  method EscapeInto(src: Bytes, dst: array<bv8>) returns (j: nat)
    requires dst.Length >= 2 && forall b :: b in src ==> b != 0
    modifies dst
    ensures j < dst.Length && dst[j] == 0
    ensures dst[..j] == Escaped(src, dst.Length) && LegalIff(src, dst.Length, dst[..j])
  {
    j := EscapePrefix(src, dst);
    ghost var out := dst[..j];
    dst[j] := 0;
    assert dst[..j] == out;
    EscapedIsBodyIff(src, dst.Length);
  }
}
