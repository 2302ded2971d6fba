/** UTF-8 as section 4 of RFC 3629 defines it, and the loaders' own check of one character. */
module Utf8 {
  type Bytes = seq<bv8>

  predicate IsTail(b: bv8) {
    0x80 <= b <= 0xBF
  }

  /** The four productions of `UTF8-char`, on a single character's bytes. */
  predicate IsUtf8Char(s: Bytes) {
    match |s|
    case 1 => s[0] <= 0x7F
    case 2 => 0xC2 <= s[0] <= 0xDF && IsTail(s[1])
    case 3 => Is3(s[0], s[1]) && IsTail(s[2])
    case 4 => Is4(s[0], s[1]) && IsTail(s[2]) && IsTail(s[3])
    case _ => false
  }

  predicate Is3(a: bv8, b: bv8) {
    || (a == 0xE0 && 0xA0 <= b <= 0xBF)
    || (0xE1 <= a <= 0xEC && IsTail(b))
    || (a == 0xED && 0x80 <= b <= 0x9F)
    || (0xEE <= a <= 0xEF && IsTail(b))
  }

  predicate Is4(a: bv8, b: bv8) {
    || (a == 0xF0 && 0x90 <= b <= 0xBF)
    || (0xF1 <= a <= 0xF3 && IsTail(b))
    || (a == 0xF4 && 0x80 <= b <= 0x8F)
  }

  /** Whether the C library's multibyte decoder accepts these bytes as one character. */
  type Decoder = Bytes -> bool

  /** All that is asked of the decoder: no character with a byte out of place after the first, and every
      well-formed character. Overlong forms, surrogates and values out of range may pass it. */
  ghost predicate Conforms(mb: Decoder) {
    && (forall s: Bytes, i :: mb(s) && 2 <= |s| <= 4 && 1 <= i < |s| ==> IsTail(s[i]))
    && (forall s: Bytes :: IsUtf8Char(s) && |s| >= 2 ==> mb(s))
  }

  // ----- the check

  function ExpectedLength(c: bv8): (n: nat)
    ensures n <= 4
  {
    if c < 0x80 then 1
    else if c & 0xE0 == 0xC0 then 2
    else if c & 0xF0 == 0xE0 then 3
    else if c & 0xF8 == 0xF0 then 4
    else 0
  }

  function CodePoint2(a: bv8, b: bv8): bv32 {
    ((a & 0x1F) as bv32 << 6) | (b & 0x3F) as bv32
  }

  function CodePoint3(a: bv8, b: bv8, c: bv8): bv32 {
    ((a & 0x0F) as bv32 << 12) | ((b & 0x3F) as bv32 << 6) | (c & 0x3F) as bv32
  }

  function CodePoint4(a: bv8, b: bv8, c: bv8, d: bv8): bv32 {
    ((a & 0x07) as bv32 << 18) | ((b & 0x3F) as bv32 << 12) | ((c & 0x3F) as bv32 << 6) | (d & 0x3F) as bv32
  }

  /** The length of the character at the start of `s`, or 0. */
  function ValidateUtf8Char(mb: Decoder, s: Bytes): (n: nat)
    ensures n <= |s| && n <= 4
  {
    if s == [] then 0
    else
      var len := ExpectedLength(s[0]);
      if len <= 1 then len
      else if |s| < len || !mb(s[..len]) then 0
      else if len == 2 then
        if CodePoint2(s[0], s[1]) < 0x80 then 0 else 2
      else if len == 3 then
        var cp := CodePoint3(s[0], s[1], s[2]);
        if cp < 0x800 || 0xD800 <= cp <= 0xDFFF then 0 else 3
      else
        var cp := CodePoint4(s[0], s[1], s[2], s[3]);
        if cp < 0x10000 || cp > 0x10FFFF then 0 else 4
  }

  // ----- the check against the grammar

  /** The check answers `n > 0` exactly when the first `n` bytes are one well-formed character: what the decoder
      lets through of overlong forms, surrogates and values above U+10FFFF, the check's own arithmetic stops. */
  lemma ValidateIsGrammar(mb: Decoder, s: Bytes, n: nat)
    requires Conforms(mb) && n > 0
    ensures ValidateUtf8Char(mb, s) == n <==> n <= |s| && IsUtf8Char(s[..n])
  {
  }

  /** The length of the well-formed character a byte string starts with, or 0: the grammar alone. */
  function CharPrefix(s: Bytes): (n: nat)
    ensures n <= |s| && n <= 4
    ensures n > 0 ==> IsUtf8Char(s[..n])
  {
    if |s| >= 1 && IsUtf8Char(s[..1]) then 1
    else if |s| >= 2 && IsUtf8Char(s[..2]) then 2
    else if |s| >= 3 && IsUtf8Char(s[..3]) then 3
    else if |s| >= 4 && IsUtf8Char(s[..4]) then 4
    else 0
  }

  lemma CharPrefixUnique(s: Bytes, n: nat)
    requires 0 < n <= |s| && IsUtf8Char(s[..n])
    ensures CharPrefix(s) == n
  {
  }

  /** The check is the grammar. */
  lemma ValidateIsCharPrefix(mb: Decoder, s: Bytes)
    requires Conforms(mb)
    ensures ValidateUtf8Char(mb, s) == CharPrefix(s)
  {
  }

  predicate IsUtf8(s: Bytes) {
    s == [] || (CharPrefix(s) > 0 && IsUtf8(s[CharPrefix(s)..]))
  }
}
