/** The detail strings of the kernel's events: file descriptors and IPv4 addresses, written and read back. */
module FdDetail {
  import opened Buffers
  import opened Decimals
  import opened Sequences
  import opened Words
  import opened Wrappers

  const INT_MIN := -0x8000_0000
  const INT_MAX := 0x7FFF_FFFF
  const LONG_MIN := -0x8000_0000_0000_0000
  const LONG_MAX := 0x7FFF_FFFF_FFFF_FFFF

  const DETAIL_LEN := 64

  // ----- file descriptors

  function Decimal(n: int): string {
    if n < 0 then "-" + Digits(-n) else Digits(n)
  }

  function FdText(fd: int): string {
    "fd=" + Decimal(fd)
  }

  /** The digits of a number, last first. */
  method ReverseDigits(u: U32) returns (digits: array<char>, dlen: nat)
    ensures fresh(digits) && dlen <= digits.Length && Reverse(digits[..dlen]) == Digits(u)
  {
    digits := new char[12];
    dlen := 0;
    var ufd: nat := u;
    if ufd == 0 {
      digits[0] := '0';
      dlen := 1;
      assert digits[..1] == "0";
      return;
    }
    Pow10Is();
    while ufd > 0 && dlen < 11
      invariant digits.Length == 12 && dlen <= 10 && ufd < Pow10(10 - dlen)
      invariant Digits(u) == High(ufd) + Reverse(digits[..dlen])
    {
      ghost var before := digits[..dlen];
      digits[dlen] := DigitChar(ufd % 10);
      PushDigit(u, ufd, before, digits[..dlen + 1]);
      ufd := ufd / 10;
      dlen := dlen + 1;
    }
    assert "" + Reverse(digits[..dlen]) == Reverse(digits[..dlen]);
  }

  lemma Pow10Is()
    ensures Pow10(10) == 10_000_000_000
  {
    assert Pow10(5) == 100_000;
    assert Pow10(10) == 10 * (10 * (10 * (10 * (10 * Pow10(5)))));
  }

  lemma PushDigit(u: nat, ufd: nat, before: string, after: string)
    requires ufd > 0 && after == before + [DigitChar(ufd % 10)]
    requires Digits(u) == High(ufd) + Reverse(before)
    ensures Digits(u) == High(ufd / 10) + Reverse(after)
  {
    var d := [DigitChar(ufd % 10)];
    ReverseSnoc(before, d[0]);
    HighNext(ufd);
    Regroup(High(ufd / 10), d, Reverse(before));
  }

  lemma Regroup(a: string, b: string, c: string)
    ensures a + b + c == a + (b + c)
  {
  }

  lemma FdTextIs(fd: int, digits: string)
    requires digits == Digits(if fd < 0 then -fd else fd)
    ensures FdText(fd) == (if fd < 0 then "fd=" + "-" else "fd=") + digits
  {
    assert "fd=" + ("-" + digits) == "fd=" + "-" + digits;
  }

  /** Writes the text of a descriptor, as much of it as fits, and a terminator. C leaves the negation of the least
      integer undefined. */
  method FormatFdDetail(buf: array<char>, fd: int)
    requires INT_MIN < fd <= INT_MAX
    modifies buf
    ensures buf[..] == if buf.Length < 4 then old(buf[..]) else Filled(old(buf[..]), FdText(fd))
  {
    if buf.Length < 4 {
      return;
    }
    ghost var was := buf[..];
    buf[0], buf[1], buf[2] := 'f', 'd', '=';
    assert buf[..3] == "fd=";
    ghost var text := "fd=";
    var pos: nat := 3;
    var digits, dlen := ReverseDigits(if fd < 0 then -fd else fd);
    if fd < 0 {
      pos := Put(buf, pos, '-', text, was);
      text := text + "-";
    }
    FdTextIs(fd, Reverse(digits[..dlen]));
    pos := PutReversed(buf, pos, digits, dlen, text, was);
    Terminate(buf, pos, FdText(fd), was);
  }

  /** Writes digits, last first, while there is room. */
  method PutReversed(
    buf: array<char>, pos0: nat, digits: array<char>, dlen: nat, ghost text0: string, ghost was: seq<char>)
    returns (pos: nat)
    requires Written(buf, pos0, text0, was) && digits != buf && dlen <= digits.Length
    modifies buf
    ensures Written(buf, pos, text0 + Reverse(digits[..dlen]), was)
  {
    ghost var all := Reverse(digits[..dlen]);
    pos := pos0;
    var i := dlen;
    assert text0 + all[..0] == text0;
    while i > 0 && pos < buf.Length - 1
      invariant i <= dlen && Written(buf, pos, text0 + all[..dlen - i], was)
    {
      ghost var text := text0 + all[..dlen - i];
      assert digits[i - 1] == all[dlen - i];
      assert text0 + all[..dlen - i + 1] == text + [all[dlen - i]];
      pos := Put(buf, pos, digits[i - 1], text, was);
      i := i - 1;
    }
    assert text0 + all[..dlen - i] + all[dlen - i..] == text0 + all;
    WrittenMore(buf, pos, text0 + all[..dlen - i], all[dlen - i..], was);
  }

  // ----- and read back

  /** C's `isspace`. */
  predicate IsSpace(c: char) {
    c == ' ' || '\U{9}' <= c <= '\U{D}'
  }

  function Spaces(s: string): (r: nat)
    ensures r <= |s|
  {
    if s == "" || !IsSpace(s[0]) then 0 else 1 + Spaces(s[1..])
  }

  function Saturate(v: int): int {
    if v < LONG_MIN then LONG_MIN else if v > LONG_MAX then LONG_MAX else v
  }

  /** The value of the digits from `start` on, and where they end; nothing is read without a digit. */
  function Number(negative: bool, s: string, start: nat): (int, nat)
    requires start <= |s|
  {
    var n := Run(s[start..]);
    if n == 0 then (0, 0)
    else
      var v: int := Value(s[start..][..n]);
      (Saturate(if negative then -v else v), start + n)
  }

  /** `strtol` in base 10: the value, and how far it read. */
  function Strtol(s: string): (int, nat) {
    var sign := Spaces(s);
    if sign < |s| && s[sign] == '-' then Number(true, s, sign + 1)
    else if sign < |s| && s[sign] == '+' then Number(false, s, sign + 1)
    else Number(false, s, sign)
  }

  /** The conversion of a `long` to an `int`. */
  function ToInt(v: int): (r: int)
    ensures INT_MIN <= r <= INT_MAX
  {
    var low := v % 0x1_0000_0000;
    if low > INT_MAX then low - 0x1_0000_0000 else low
  }

  function ParseFdDetail(detail: Option<string>): Option<int> {
    if detail.None? || |detail.value| < 3 || detail.value[..3] != "fd=" then None
    else
      var text := detail.value[3..];
      var (v, end) := Strtol(text);
      if end == 0 || end < |text| then None else Some(ToInt(v))
  }

  lemma NumberOfDigits(negative: bool, s: string, start: nat, n: nat)
    requires start <= |s| && s[start..] == Digits(n)
    ensures Number(negative, s, start) == (Saturate(if negative then 0 - n else n), |s|)
  {
    var digits := Digits(n);
    ValueOfDigits(n);
    RunOf(digits, "");
    assert digits + "" == digits && digits[..|digits|] == digits;
  }

  lemma StrtolOfDecimal(n: int)
    ensures Strtol(Decimal(n)) == (Saturate(n), |Decimal(n)|)
  {
    var s := Decimal(n);
    if n < 0 {
      assert s[0] == '-' && s[1..] == Digits(-n);
      NumberOfDigits(true, s, 1, -n);
    } else {
      assert s[0] in s && s[0..] == s;
      NumberOfDigits(false, s, 0, n);
    }
  }

  lemma ToIntOfSaturated(n: int)
    ensures ToInt(Saturate(n)) == n <==> INT_MIN <= n <= INT_MAX
  {
  }

  lemma ParseOfFdText(n: int)
    ensures ParseFdDetail(Some(FdText(n))) == Some(ToInt(Saturate(n)))
  {
    StrtolOfDecimal(n);
    var s, decimal := FdText(n), Decimal(n);
    assert s[..3] == "fd=" && s[3..] == decimal && decimal != "";
  }

  /** Whatever integer stands in a detail, parsing gives it cut to a `long` and then wrapped to an `int`; so it gives
      it back exactly when it is an `int`. */
  lemma ParseUndoesFormatIff(n: int)
    ensures ParseFdDetail(Some(FdText(n))) == Some(ToInt(Saturate(n)))
    ensures ParseFdDetail(Some(FdText(n))) == Some(n) <==> INT_MIN <= n <= INT_MAX
  {
    ParseOfFdText(n);
    ToIntOfSaturated(n);
  }

  lemma FdTextFits(fd: int)
    requires INT_MIN < fd <= INT_MAX
    ensures |FdText(fd)| <= 14 && '\0' !in FdText(fd)
  {
    Pow10Is();
    DigitsFit(if fd < 0 then -fd else fd, 10);
  }

  /** What the kernel writes into a detail of 64 characters, whatever was there, user space reads back. */
  lemma DetailReadsBack(was: seq<char>, fd: int)
    requires |was| == DETAIL_LEN && INT_MIN < fd <= INT_MAX
    ensures ParseFdDetail(Some(CText(Filled(was, FdText(fd))))) == Some(fd)
  {
    FdTextFits(fd);
    FilledReadsBack(was, FdText(fd));
    ParseUndoesFormatIff(fd);
  }

  lemma ToIntWraps(fd: int)
    requires INT_MIN <= fd <= INT_MAX
    ensures ToInt(Saturate(fd + 0x1_0000_0000)) == fd
  {
  }

  /** The reader accepts more than the writer writes: a number too wide for an `int` passes as another descriptor. */
  lemma WideNumbersPass(fd: int)
    requires INT_MIN <= fd <= INT_MAX
    ensures ParseFdDetail(Some(FdText(fd + 0x1_0000_0000))) == Some(fd)
  {
    ToIntWraps(fd);
    ParseOfFdText(fd + 0x1_0000_0000);
  }
}
