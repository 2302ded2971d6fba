/** Fixed buffers that texts are written into, cut off at the end, as NUL-terminated strings. */
module Buffers {
  function Min(a: int, b: int): int {
    if a < b then a else b
  }

  /** The text so far, or as much of it as leaves room for a terminator, is what stands before `pos`; from there on the
      buffer is as it `was`. */
  predicate Written(buf: array<char>, pos: nat, text: string, was: seq<char>)
    reads buf
  {
    && buf.Length == |was| > 0 && pos == Min(|text|, |was| - 1)
    && buf[..pos] == text[..pos] && buf[pos..] == was[pos..]
  }

  /** Writes one character if there is room. */
  method Put(buf: array<char>, pos: nat, c: char, ghost text: string, ghost was: seq<char>) returns (pos': nat)
    requires Written(buf, pos, text, was)
    modifies buf
    ensures Written(buf, pos', text + [c], was)
  {
    pos' := pos;
    if pos < buf.Length - 1 {
      buf[pos] := c;
      pos' := pos + 1;
    }
  }

  lemma WrittenMore(buf: array<char>, pos: nat, text: string, more: string, was: seq<char>)
    requires Written(buf, pos, text, was) && (pos == buf.Length - 1 || more == "")
    ensures Written(buf, pos, text + more, was)
  {
  }

  /** The buffer after a text was written into it: cut off if it must be, and terminated. */
  function Filled(was: seq<char>, text: string): (r: seq<char>)
    requires was != []
    ensures |r| == |was|
  {
    var n := Min(|text|, |was| - 1);
    text[..n] + ['\0'] + was[n + 1..]
  }

  method Terminate(buf: array<char>, pos: nat, ghost text: string, ghost was: seq<char>)
    requires Written(buf, pos, text, was)
    modifies buf
    ensures buf[..] == Filled(was, text)
  {
    buf[pos] := '\0';
  }

  /** What a reader of the buffer sees: the characters before the first NUL. */
  function CText(s: seq<char>): string {
    if s == [] || s[0] == '\0' then "" else [s[0]] + CText(s[1..])
  }

  /** A text without NULs that fits with its terminator is read back whole. */
  lemma FilledReadsBack(was: seq<char>, text: string)
    requires |text| < |was| && '\0' !in text
    ensures CText(Filled(was, text)) == text
  {
    CTextIs(Filled(was, text), text);
  }

  lemma {:induction false} CTextIs(s: seq<char>, text: string)
    requires |text| < |s| && s[..|text|] == text && s[|text|] == '\0' && '\0' !in text
    ensures CText(s) == text
  {
    if text != "" {
      assert s[0] == text[0] && text[0] in text;
      assert s[1..][..|text| - 1] == text[1..];
      CTextIs(s[1..], text[1..]);
    }
  }
}
