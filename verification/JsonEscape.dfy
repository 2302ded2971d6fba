/** JSON string escaping of the loaders' output: the streaming printer, for arbitrary bytes. */
module JsonEscape {
  import opened Wrappers
  import opened Utf8

  const BACKSLASH: bv8 := 0x5C
  const QUOTE: bv8 := 0x22

  // ----- the printer

  /** A lower-case hexadecimal digit. */
  function Hex(x: bv8): bv8 {
    if x < 10 then 0x30 + x else 0x57 + x
  }

  /** `printf("\\u%04x", c)` of one byte. */
  function UnicodeEscape(c: bv8): (r: Bytes)
    ensures |r| == 6
  {
    [BACKSLASH, 0x75, 0x30, 0x30, Hex(c >> 4), Hex(c & 0x0F)]
  }

  /** The letter of a two-character escape, or 0. */
  function ShortEscape(c: bv8): bv8 {
    if c == QUOTE || c == BACKSLASH then c
    else if c == 0x0A then 0x6E
    else if c == 0x0D then 0x72
    else if c == 0x09 then 0x74
    else if c == 0x08 then 0x62
    else if c == 0x0C then 0x66
    else 0
  }

  /** The first byte is printed as `\u00XX`: a control character without a short escape, DEL, or a byte that
      starts no valid character. */
  predicate Escaped(buf: Bytes)
    requires buf != []
  {
    ShortEscape(buf[0]) == 0 && !(32 <= buf[0] <= 126) && !(buf[0] >= 128 && CharPrefix(buf) > 0)
  }

  /** How many bytes the first printed item covers. */
  function Covered(buf: Bytes): (n: nat)
    requires buf != []
    ensures 1 <= n <= |buf|
  {
    if buf[0] >= 128 && CharPrefix(buf) > 0 then CharPrefix(buf) else 1
  }

  /** What is printed for them. */
  function EmitFirst(buf: Bytes): Bytes
    requires buf != []
  {
    if ShortEscape(buf[0]) != 0 then [BACKSLASH, ShortEscape(buf[0])]
    else if Escaped(buf) then UnicodeEscape(buf[0])
    else buf[..Covered(buf)]
  }

  function Emit(buf: Bytes): Bytes
    decreases |buf|
  {
    if buf == [] then [] else EmitFirst(buf) + Emit(buf[Covered(buf)..])
  }

  // ----- what passes through

  /** Neither a control character nor DEL, a quote or a backslash. */
  predicate IsPlain(c: bv8) {
    c >= 32 && c != 127 && c != QUOTE && c != BACKSLASH
  }

  predicate AllPlain(buf: Bytes) {
    forall i :: 0 <= i < |buf| ==> IsPlain(buf[i])
  }

  lemma CharIsHighPlain(buf: Bytes)
    requires buf != [] && buf[0] >= 128 && CharPrefix(buf) > 0
    ensures AllPlain(buf[..CharPrefix(buf)])
  {
    var n := CharPrefix(buf);
    assert IsUtf8Char(buf[..n]);
  }

  lemma ItemIsVerbatimIff(buf: Bytes)
    requires buf != []
    ensures EmitFirst(buf) == buf[..Covered(buf)] <==> IsPlain(buf[0]) && CharPrefix(buf) > 0
    ensures IsPlain(buf[0]) && CharPrefix(buf) > 0 ==> Covered(buf) == CharPrefix(buf) && AllPlain(buf[..Covered(buf)])
    ensures |EmitFirst(buf)| >= Covered(buf)
    ensures EmitFirst(buf) != buf[..Covered(buf)] ==> |EmitFirst(buf)| > Covered(buf)
  {
    if buf[0] < 128 {
      CharPrefixUnique(buf, 1);
    } else if CharPrefix(buf) > 0 {
      CharIsHighPlain(buf);
    }
  }

  lemma {:induction false} EmitGrows(buf: Bytes)
    ensures |Emit(buf)| >= |buf|
    decreases |buf|
  {
    if buf != [] {
      ItemIsVerbatimIff(buf);
      EmitGrows(buf[Covered(buf)..]);
    }
  }

  lemma PlainSplits(buf: Bytes, n: nat)
    requires n <= |buf|
    ensures AllPlain(buf) <==> AllPlain(buf[..n]) && AllPlain(buf[n..])
  {
    if AllPlain(buf[..n]) && AllPlain(buf[n..]) {
      forall i | 0 <= i < |buf| ensures IsPlain(buf[i]) {
        assert i < n ==> buf[i] == buf[..n][i];
        assert i >= n ==> buf[i] == buf[n..][i - n];
      }
    }
  }

  /** Valid UTF-8 without control characters, DEL, quotes and backslashes passes through, and nothing else does. */
  lemma {:induction false} PassesThroughIff(buf: Bytes)
    ensures Emit(buf) == buf <==> IsUtf8(buf) && AllPlain(buf)
    decreases |buf|
  {
    if buf != [] {
      var n := Covered(buf);
      var first, rest := EmitFirst(buf), Emit(buf[n..]);
      ItemIsVerbatimIff(buf);
      PassesThroughIff(buf[n..]);
      EmitGrows(buf[n..]);
      PlainSplits(buf, n);
      assert buf == buf[..n] + buf[n..];
      if Emit(buf) == buf {
        assert |first| == n;
        assert first == Emit(buf)[..n] && rest == Emit(buf)[n..];
      }
    }
  }

  // ----- what the output means

  /** The byte that a short escape letter stands for, in section 7 of RFC 8259. */
  function ShortMeaning(l: bv8): Option<bv8> {
    if l == QUOTE || l == BACKSLASH || l == 0x2F then Some(l)
    else if l == 0x6E then Some(0x0A)
    else if l == 0x72 then Some(0x0D)
    else if l == 0x74 then Some(0x09)
    else if l == 0x62 then Some(0x08)
    else if l == 0x66 then Some(0x0C)
    else None
  }

  function HexValue(d: bv8): Option<bv8> {
    if 0x30 <= d <= 0x39 then Some(d - 0x30)
    else if 0x61 <= d <= 0x66 then Some(d - 0x57)
    else if 0x41 <= d <= 0x46 then Some(d - 0x37)
    else None
  }

  /** Reads a string body back: raw bytes stand for themselves, `\u00XX` for `u(XX)`. Four-digit escapes of larger
      code points are not produced by the printer and not read here. */
  function Decode(out: Bytes, u: bv8 -> Bytes): Option<Bytes>
    decreases |out|
  {
    if out == [] then Some([])
    else if out[0] != BACKSLASH then Prefix([out[0]], Decode(out[1..], u))
    else if |out| < 2 then None
    else if out[1] != 0x75 then
      match ShortMeaning(out[1])
      case Some(b) => Prefix([b], Decode(out[2..], u))
      case None => None
    else if |out| < 6 || out[2] != 0x30 || out[3] != 0x30 || HexValue(out[4]) == None || HexValue(out[5]) == None then None
    else Prefix(u((HexValue(out[4]).value << 4) | HexValue(out[5]).value), Decode(out[6..], u))
  }

  function Prefix(a: Bytes, rest: Option<Bytes>): Option<Bytes> {
    if rest.Some? then Some(a + rest.value) else None
  }

  /** A decoder that knows the output came from bytes: the escape is the byte. */
  function AsByte(): bv8 -> Bytes {
    (c: bv8) => [c]
  }

  /** A JSON reader: the escape is the code point U+00XX, here in its UTF-8 form. */
  function AsCodePoint(): bv8 -> Bytes {
    (c: bv8) => Utf8OfByte(c)
  }

  function Utf8OfByte(c: bv8): Bytes {
    if c < 0x80 then [c] else [0xC0 | (c >> 6), 0x80 | (c & 0x3F)]
  }

  /** The input with every byte that is printed as `\u00XX` read through `u`. */
  function Meaning(buf: Bytes, u: bv8 -> Bytes): Bytes
    decreases |buf|
  {
    if buf == [] then []
    else
      var n := Covered(buf);
      (if Escaped(buf) then u(buf[0]) else buf[..n]) + Meaning(buf[n..], u)
  }

  lemma HexRoundTrip(c: bv8)
    ensures HexValue(Hex(c >> 4)) == Some(c >> 4)
    ensures HexValue(Hex(c & 0x0F)) == Some(c & 0x0F)
    ensures ((c >> 4) << 4) | (c & 0x0F) == c
  {
  }

  lemma PrefixPrefix(a: Bytes, b: Bytes, rest: Option<Bytes>)
    ensures Prefix(a, Prefix(b, rest)) == Prefix(a + b, rest)
  {
    if rest.Some? {
      assert a + (b + rest.value) == a + b + rest.value;
    }
  }

  lemma {:induction false} DecodeRaw(raw: Bytes, rest: Bytes, u: bv8 -> Bytes)
    requires forall i :: 0 <= i < |raw| ==> raw[i] != BACKSLASH
    ensures Decode(raw + rest, u) == Prefix(raw, Decode(rest, u))
  {
    if raw == [] {
      assert raw + rest == rest;
      assert Decode(rest, u).Some? ==> [] + Decode(rest, u).value == Decode(rest, u).value;
    } else {
      assert (raw + rest)[1..] == raw[1..] + rest;
      DecodeRaw(raw[1..], rest, u);
      PrefixPrefix([raw[0]], raw[1..], Decode(rest, u));
      assert [raw[0]] + raw[1..] == raw;
    }
  }

  lemma ShortRoundTrip(c: bv8)
    requires ShortEscape(c) != 0
    ensures ShortMeaning(ShortEscape(c)) == Some(c) && ShortEscape(c) != 0x75
  {
  }

  lemma DecodeShort(c: bv8, rest: Bytes, u: bv8 -> Bytes)
    requires ShortEscape(c) != 0
    ensures Decode([BACKSLASH, ShortEscape(c)] + rest, u) == Prefix([c], Decode(rest, u))
  {
    var out := [BACKSLASH, ShortEscape(c)] + rest;
    ShortRoundTrip(c);
    assert out[2..] == rest && out[0] == BACKSLASH && out[1] == ShortEscape(c);
  }

  lemma DecodeUnicode(c: bv8, rest: Bytes, u: bv8 -> Bytes)
    ensures Decode(UnicodeEscape(c) + rest, u) == Prefix(u(c), Decode(rest, u))
  {
    var out := UnicodeEscape(c) + rest;
    assert out[6..] == rest && out[..6] == UnicodeEscape(c);
    HexRoundTrip(c);
    assert out[0] == BACKSLASH && out[1] == 0x75 && out[2] == 0x30 && out[3] == 0x30;
    assert out[4] == Hex(c >> 4) && out[5] == Hex(c & 0x0F);
  }

  /** What is passed through is one character, and none of its bytes has a meaning in JSON. */
  lemma PlainIsRaw(buf: Bytes)
    requires buf != [] && ShortEscape(buf[0]) == 0 && !Escaped(buf)
    ensures var out := buf[..Covered(buf)];
      && IsUtf8Char(out) && out[0] >= 0x20 && out[0] != QUOTE
      && forall i :: 0 <= i < |out| ==> out[i] != BACKSLASH
  {
  }

  lemma DecodeFirst(buf: Bytes, rest: Bytes, u: bv8 -> Bytes)
    requires buf != []
    ensures Decode(EmitFirst(buf) + rest, u) ==
      Prefix(if Escaped(buf) then u(buf[0]) else buf[..Covered(buf)], Decode(rest, u))
  {
    if ShortEscape(buf[0]) != 0 {
      DecodeShort(buf[0], rest, u);
      assert buf[..1] == [buf[0]];
    } else if Escaped(buf) {
      DecodeUnicode(buf[0], rest, u);
    } else {
      PlainIsRaw(buf);
      DecodeRaw(buf[..Covered(buf)], rest, u);
    }
  }

  lemma {:induction false} DecodeEmit(buf: Bytes, u: bv8 -> Bytes)
    ensures Decode(Emit(buf), u) == Some(Meaning(buf, u))
    decreases |buf|
  {
    if buf != [] {
      var tail := buf[Covered(buf)..];
      DecodeEmit(tail, u);
      DecodeFirst(buf, Emit(tail), u);
    }
  }

  lemma {:induction false} MeaningAsByte(buf: Bytes)
    ensures Meaning(buf, AsByte()) == buf
    decreases |buf|
  {
    if buf != [] {
      var n := Covered(buf);
      MeaningAsByte(buf[n..]);
      assert n == 1 ==> buf[..1] == [buf[0]];
      assert buf == buf[..n] + buf[n..];
    }
  }

  /** On valid UTF-8 the printer goes character by character and escapes ASCII at most. */
  lemma Utf8Step(buf: Bytes)
    requires buf != [] && IsUtf8(buf)
    ensures Covered(buf) == CharPrefix(buf)
    ensures Escaped(buf) ==> Utf8OfByte(buf[0]) == buf[..CharPrefix(buf)]
  {
    if buf[0] < 128 {
      CharPrefixUnique(buf, 1);
      assert buf[..1] == [buf[0]];
    }
  }

  lemma MeaningStep(buf: Bytes)
    requires buf != [] && IsUtf8(buf)
    ensures var n := CharPrefix(buf);
      Meaning(buf, AsCodePoint()) == buf[..n] + Meaning(buf[n..], AsCodePoint())
  {
    Utf8Step(buf);
  }

  lemma SplitAt(s: Bytes, n: nat)
    requires n <= |s|
    ensures s[..n] + s[n..] == s
  {
  }

  lemma {:induction false} MeaningOfUtf8(buf: Bytes)
    requires IsUtf8(buf)
    ensures Meaning(buf, AsCodePoint()) == buf
    decreases |buf|
  {
    if buf != [] {
      MeaningStep(buf);
      MeaningOfUtf8(buf[CharPrefix(buf)..]);
      SplitAt(buf, CharPrefix(buf));
    }
  }

  /** The printer is lossless for every byte string: reading escapes as bytes gives the input back. */
  lemma EmitIsLossless(buf: Bytes)
    ensures Decode(Emit(buf), AsByte()) == Some(buf)
  {
    DecodeEmit(buf, AsByte());
    MeaningAsByte(buf);
  }

  lemma ByteIsChar(c: bv8)
    ensures IsUtf8Char(Utf8OfByte(c))
  {
  }

  lemma CharThenUtf8(ch: Bytes, rest: Bytes)
    requires IsUtf8Char(ch) && IsUtf8(rest)
    ensures IsUtf8(ch + rest)
  {
    assert (ch + rest)[..|ch|] == ch && (ch + rest)[|ch|..] == rest;
    CharPrefixUnique(ch + rest, |ch|);
  }

  /** Whatever the input, a JSON reader gets text. */
  lemma {:induction false} MeaningIsUtf8(buf: Bytes)
    ensures IsUtf8(Meaning(buf, AsCodePoint()))
    decreases |buf|
  {
    if buf != [] {
      var n := Covered(buf);
      MeaningIsUtf8(buf[n..]);
      if Escaped(buf) {
        ByteIsChar(buf[0]);
        CharThenUtf8(Utf8OfByte(buf[0]), Meaning(buf[n..], AsCodePoint()));
      } else {
        PassedIsChar(buf);
        CharThenUtf8(buf[..n], Meaning(buf[n..], AsCodePoint()));
      }
    }
  }

  lemma PassedIsChar(buf: Bytes)
    requires buf != [] && !Escaped(buf)
    ensures IsUtf8Char(buf[..Covered(buf)])
  {
    if buf[0] < 0x80 {
      assert buf[..1] == [buf[0]];
    }
  }

  /** What a JSON reader makes of the output is the input if and only if the input is valid UTF-8. */
  lemma JsonValueIsInputIffUtf8(buf: Bytes)
    ensures Decode(Emit(buf), AsCodePoint()) == Some(buf) <==> IsUtf8(buf)
  {
    DecodeEmit(buf, AsCodePoint());
    MeaningIsUtf8(buf);
    if IsUtf8(buf) {
      MeaningOfUtf8(buf);
    }
  }

  // ----- the output is a legal string body

  /** Escapes, and UTF-8 characters other than quote, backslash and control characters: section 7 of RFC 8259. */
  predicate IsBody(s: Bytes)
    decreases |s|
  {
    if s == [] then true
    else if s[0] == BACKSLASH then
      if |s| >= 2 && ShortMeaning(s[1]).Some? then IsBody(s[2..])
      else |s| >= 6 && s[1] == 0x75 && (forall i :: 2 <= i < 6 ==> HexValue(s[i]).Some?) && IsBody(s[6..])
    else
      CharPrefix(s) > 0 && s[0] >= 0x20 && s[0] != QUOTE && IsBody(s[CharPrefix(s)..])
  }

  /** A body can be extended in front by a character or an escape. */
  lemma BodyChar(ch: Bytes, rest: Bytes)
    requires IsBody(rest) && IsUtf8Char(ch) && ch[0] >= 0x20 && ch[0] != QUOTE && ch[0] != BACKSLASH
    ensures IsBody(ch + rest)
  {
    assert (ch + rest)[..|ch|] == ch && (ch + rest)[|ch|..] == rest;
    CharPrefixUnique(ch + rest, |ch|);
  }

  lemma BodyShort(c: bv8, rest: Bytes)
    requires IsBody(rest) && ShortEscape(c) != 0
    ensures IsBody([BACKSLASH, ShortEscape(c)] + rest)
  {
    var out := [BACKSLASH, ShortEscape(c)] + rest;
    ShortRoundTrip(c);
    assert out[2..] == rest && out[1] == ShortEscape(c);
  }

  lemma BodyUnicode(c: bv8, rest: Bytes)
    requires IsBody(rest)
    ensures IsBody(UnicodeEscape(c) + rest)
  {
    var out := UnicodeEscape(c) + rest;
    HexRoundTrip(c);
    assert out[6..] == rest && out[..6] == UnicodeEscape(c);
    assert out[1] == 0x75 && out[2] == 0x30 && out[3] == 0x30 && out[4] == Hex(c >> 4) && out[5] == Hex(c & 0x0F);
  }

  lemma {:induction false} EmitIsBody(buf: Bytes)
    ensures IsBody(Emit(buf))
    decreases |buf|
  {
    if buf != [] {
      var rest := Emit(buf[Covered(buf)..]);
      EmitIsBody(buf[Covered(buf)..]);
      if ShortEscape(buf[0]) != 0 {
        BodyShort(buf[0], rest);
      } else if Escaped(buf) {
        BodyUnicode(buf[0], rest);
      } else {
        PlainIsRaw(buf);
        BodyChar(buf[..Covered(buf)], rest);
      }
    }
  }

  /** A legal body is valid UTF-8 as a whole. */
  lemma {:induction false} BodyIsUtf8(s: Bytes)
    requires IsBody(s)
    ensures IsUtf8(s)
    decreases |s|
  {
    if s != [] {
      if s[0] == BACKSLASH {
        if |s| >= 2 && ShortMeaning(s[1]).Some? {
          BodyIsUtf8(s[2..]);
          AsciiPrefix(s, 2);
        } else {
          BodyIsUtf8(s[6..]);
          AsciiPrefix(s, 6);
        }
      } else {
        BodyIsUtf8(s[CharPrefix(s)..]);
      }
    }
  }

  lemma AsciiHead(s: Bytes)
    requires s != [] && s[0] < 0x80 && IsUtf8(s[1..])
    ensures IsUtf8(s)
  {
    assert IsUtf8Char(s[..1]);
    CharPrefixUnique(s, 1);
  }

  lemma {:induction false} AsciiPrefix(s: Bytes, n: nat)
    requires n <= |s| && (forall i :: 0 <= i < n ==> s[i] < 0x80) && IsUtf8(s[n..])
    ensures IsUtf8(s)
    decreases n
  {
    if n == 0 {
      assert s[0..] == s;
    } else {
      assert s[1..][n - 1..] == s[n..];
      AsciiPrefix(s[1..], n - 1);
      AsciiHead(s);
    }
  }

  /** Every output of the printer, whatever the input bytes, is a legal body and valid UTF-8. */
  lemma EmitIsLegal(buf: Bytes)
    ensures IsBody(Emit(buf)) && IsUtf8(Emit(buf))
  {
    EmitIsBody(buf);
    BodyIsUtf8(Emit(buf));
  }

  // ----- the loop

  method PrintAscii(c: bv8) returns (out: Bytes)
    requires c < 128
    ensures out == if ShortEscape(c) != 0 then [BACKSLASH, ShortEscape(c)]
                   else if 32 <= c <= 126 then [c] else UnicodeEscape(c)
  {
    if c == QUOTE || c == BACKSLASH {
      out := [BACKSLASH, c];
    } else if c == 0x0A {
      out := [BACKSLASH, 0x6E];
    } else if c == 0x0D {
      out := [BACKSLASH, 0x72];
    } else if c == 0x09 {
      out := [BACKSLASH, 0x74];
    } else if c == 0x08 {
      out := [BACKSLASH, 0x62];
    } else if c == 0x0C {
      out := [BACKSLASH, 0x66];
    } else if 32 <= c <= 126 {
      out := [c];
    } else {
      out := UnicodeEscape(c);
    }
  }

  lemma EmitStep(buf: Bytes, i: nat, printed: Bytes)
    requires i < |buf|
    ensures var here := buf[i..]; var n := Covered(here);
      printed + Emit(here) == printed + EmitFirst(here) + Emit(buf[i + n..])
  {
    var here := buf[i..];
    var n := Covered(here);
    assert here[n..] == buf[i + n..];
    assert printed + (EmitFirst(here) + Emit(here[n..])) == printed + EmitFirst(here) + Emit(here[n..]);
  }

  /** Prints the item at `buf[i]`; answers where the next one starts. */
  method PrintItem(mb: Decoder, buf: Bytes, i: nat) returns (item: Bytes, next: nat)
    requires Conforms(mb) && i < |buf|
    ensures item == EmitFirst(buf[i..]) && next == i + Covered(buf[i..])
  {
    var c := buf[i];
    next := i;
    if c < 128 {
      item := PrintAscii(c);
      assert buf[i..][..1] == [c];
    } else {
      var len := ValidateUtf8Char(mb, buf[i..]);
      ValidateIsCharPrefix(mb, buf[i..]);
      if len > 0 {
        item := buf[i..i + len];
        assert item == buf[i..][..len];
        next := i + len - 1;
      } else {
        item := UnicodeEscape(c);
      }
    }
    next := next + 1;
  }

  /** Prints `buf` into an output stream. `mb` is the C library's decoder in the UTF-8 locale the printer needs. */
  method JsonPrintEscaped(mb: Decoder, buf: Bytes) returns (out: Bytes)
    requires Conforms(mb)
    ensures out == Emit(buf)
  {
    out := [];
    var i := 0;
    assert buf[0..] == buf;
    while i < |buf|
      invariant i <= |buf|
      invariant out + Emit(buf[i..]) == Emit(buf)
    {
      EmitStep(buf, i, out);
      ghost var printed := out + Emit(buf[i..]);
      var item, next := PrintItem(mb, buf, i);
      out := out + item;
      i := next;
      assert out + Emit(buf[i..]) == printed;
    }
    assert out + [] == out;
  }
}
