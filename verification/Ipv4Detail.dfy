/** The kernel's text for an IPv4 address and port, and a reader that undoes it. */
module Ipv4Detail {
  import opened Buffers
  import opened Decimals
  import opened Words
  import opened Wrappers

  type U16 = x: int | 0 <= x < 0x1_0000

  /** The address without its first `i` octets, the word shifted down. */
  function Upper(ip: nat, i: nat): nat {
    if i == 0 then ip else Upper(ip, i - 1) / 0x100
  }

  /** Octet `i` of an address in network order, as it lies in a little-endian word. */
  function Octet(ip: nat, i: nat): (r: nat)
    ensures r < 256
  {
    Upper(ip, i) % 0x100
  }

  /** The character after octet `i`. */
  function Sep(i: nat): char {
    if i < 3 then '.' else ':'
  }

  function Octets(ip: U32, n: nat): string
    requires n <= 4
  {
    if n == 0 then "" else Octets(ip, n - 1) + Digits(Octet(ip, n - 1)) + [Sep(n - 1)]
  }

  function Ipv4Text(ip: U32, port: U16): string {
    Octets(ip, 4) + Digits(port)
  }

  /** The address's four octets, lowest byte first, with dots between them, a colon and the port. */
  lemma TextIsDotted(ip: U32, port: U16)
    ensures Ipv4Text(ip, port) ==
      Digits(ip % 0x100) + "." + Digits(ip / 0x100 % 0x100) + "." + Digits(ip / 0x100 / 0x100 % 0x100) + "."
      + Digits(ip / 0x100 / 0x100 / 0x100 % 0x100) + ":" + Digits(port)
  {
    assert Octet(ip, 0) == ip % 0x100 && Octet(ip, 1) == ip / 0x100 % 0x100;
    assert Octet(ip, 2) == ip / 0x100 / 0x100 % 0x100 && Octet(ip, 3) == ip / 0x100 / 0x100 / 0x100 % 0x100;
    assert Octets(ip, 1) == Digits(Octet(ip, 0)) + ".";
    assert Octets(ip, 2) == Octets(ip, 1) + Digits(Octet(ip, 1)) + ".";
    assert Octets(ip, 3) == Octets(ip, 2) + Digits(Octet(ip, 2)) + ".";
    assert Octets(ip, 4) == Octets(ip, 3) + Digits(Octet(ip, 3)) + ":";
  }

  // ----- the writer

  /** Writes a character under a condition, and if there is room. */
  method PutIf(buf: array<char>, pos: nat, cond: bool, c: char, ghost text: string, ghost was: seq<char>)
    returns (pos': nat)
    requires Written(buf, pos, text, was)
    modifies buf
    ensures Written(buf, pos', text + if cond then [c] else "", was)
  {
    pos' := pos;
    if cond {
      pos' := Put(buf, pos, c, text, was);
    } else {
      assert text + "" == text;
    }
  }

  /** Writes the next digit of a number that is not 0. */
  method PutDigit(buf: array<char>, pos: nat, n: nat, ghost text: string, ghost was: seq<char>) returns (pos': nat)
    requires Written(buf, pos, text + High(n / 10), was)
    modifies buf
    ensures Written(buf, pos', text + High(n), was)
  {
    pos' := PutIf(buf, pos, n > 0, DigitChar(n % 10), text + High(n / 10), was);
    HighNext(n);
    var digit := if n > 0 then [DigitChar(n % 10)] else "";
    assert text + High(n / 10) + digit == text + (High(n / 10) + digit);
  }

  /** Writes the last digit of a number, 0 or not. */
  method PutLastDigit(buf: array<char>, pos: nat, n: nat, ghost text: string, ghost was: seq<char>) returns (pos': nat)
    requires Written(buf, pos, text + High(n / 10), was)
    modifies buf
    ensures Written(buf, pos', text + Digits(n), was)
  {
    pos' := Put(buf, pos, DigitChar(n % 10), text + High(n / 10), was);
    HighNext(n);
    assert text + High(n / 10) + [DigitChar(n % 10)] == text + (High(n / 10) + [DigitChar(n % 10)]);
  }

  method WriteOctet(buf: array<char>, pos: nat, val: nat, ghost text: string, ghost was: seq<char>) returns (pos': nat)
    requires Written(buf, pos, text, was) && val < 256
    modifies buf
    ensures Written(buf, pos', text + Digits(val), was)
  {
    assert text + High(val / 100 / 10) == text;
    pos' := PutDigit(buf, pos, val / 100, text, was);
    pos' := PutDigit(buf, pos', val / 10, text, was);
    pos' := PutLastDigit(buf, pos', val, text, was);
  }

  lemma Tens(p: U16)
    ensures p / 10 / 10 == p / 100 && p / 100 / 10 == p / 1000 && p / 1000 / 10 == p / 10000 && p / 10000 / 10 == 0
  {
  }

  method WritePort(buf: array<char>, pos: nat, port: U16, ghost text: string, ghost was: seq<char>) returns (pos': nat)
    requires Written(buf, pos, text, was)
    modifies buf
    ensures Written(buf, pos', text + Digits(port), was)
  {
    var p: nat := port;
    Tens(p);
    assert text + High(0) == text;
    pos' := PutDigit(buf, pos, p / 10000, text, was);
    pos' := PutDigit(buf, pos', p / 1000, text, was);
    pos' := PutDigit(buf, pos', p / 100, text, was);
    pos' := PutDigit(buf, pos', p / 10, text, was);
    pos' := PutLastDigit(buf, pos', p, text, was);
  }

  /** One octet and the character after it. */
  method WritePart(buf: array<char>, pos: nat, ip: U32, i: nat, ghost was: seq<char>) returns (pos': nat)
    requires i < 4 && Written(buf, pos, Octets(ip, i), was)
    modifies buf
    ensures Written(buf, pos', Octets(ip, i + 1), was)
  {
    ghost var text := Octets(ip, i);
    pos' := WriteOctet(buf, pos, Octet(ip, i), text, was);
    pos' := Put(buf, pos', Sep(i), text + Digits(Octet(ip, i)), was);
  }

  /** Writes address and port, as much as fits, and a terminator. */
  method FormatIpv4Port(buf: array<char>, ip: U32, port: U16)
    requires buf.Length > 0
    modifies buf
    ensures buf[..] == Filled(old(buf[..]), Ipv4Text(ip, port))
  {
    ghost var was := buf[..];
    var pos := WritePart(buf, 0, ip, 0, was);
    pos := WritePart(buf, pos, ip, 1, was);
    pos := WritePart(buf, pos, ip, 2, was);
    pos := WritePart(buf, pos, ip, 3, was);
    pos := WritePort(buf, pos, port, Octets(ip, 4), was);
    Terminate(buf, pos, Ipv4Text(ip, port), was);
  }

  // ----- the reader

  /** Digits up to a separator, after digits worth `value`; and what follows. */
  function ReadDigits(s: string, sep: char, value: nat): Option<(nat, string)> {
    if s == "" then None
    else if s[0] == sep then Some((value, s[1..]))
    else if IsDigit(s[0]) then ReadDigits(s[1..], sep, 10 * value + DigitValue(s[0]))
    else None
  }

  /** A number and a separator. */
  function ReadPart(s: string, sep: char): Option<(nat, string)> {
    if s != "" && IsDigit(s[0]) then ReadDigits(s, sep, 0) else None
  }

  /** Octets `i` to 3, the first the least significant, and what follows. */
  function ReadOctets(s: string, i: nat): Option<(nat, string)>
    requires i <= 4
    decreases 4 - i
  {
    if i == 4 then Some((0, s))
    else
      match ReadPart(s, Sep(i))
      case None => None
      case Some((n, rest)) =>
        match ReadOctets(rest, i + 1) case Some((v, end)) => Some((n + 0x100 * v, end)) case None => None
  }

  function ParseIpv4(s: string): Option<(nat, nat)> {
    match ReadOctets(s, 0)
    case Some((ip, port)) => if port != "" && Run(port) == |port| then Some((ip, Value(port))) else None
    case None => None
  }

  lemma {:induction false} ReadPrefix(digits: string, rest: string, sep: char)
    requires !IsDigit(sep) && forall c :: c in digits ==> IsDigit(c)
    ensures ReadDigits(digits + rest, sep, 0) == ReadDigits(rest, sep, Value(digits))
  {
    if digits == "" {
      assert digits + rest == rest;
    } else {
      var init, last := digits[..|digits| - 1], digits[|digits| - 1];
      assert digits + rest == init + ([last] + rest);
      ReadPrefix(init, [last] + rest, sep);
      assert last in digits && ([last] + rest)[1..] == rest;
    }
  }

  lemma ReadPartOf(n: nat, sep: char, rest: string)
    requires !IsDigit(sep)
    ensures ReadPart(Digits(n) + [sep] + rest, sep) == Some((n, rest))
  {
    var digits := Digits(n);
    assert digits + [sep] + rest == digits + ([sep] + rest);
    ReadPrefix(digits, [sep] + rest, sep);
    assert digits[0] in digits && ([sep] + rest)[1..] == rest;
    ValueOfDigits(n);
  }

  /** The text from octet `i` on, `end` standing for the port. */
  function PartsFrom(ip: U32, end: string, i: nat): string
    requires i <= 4
    decreases 4 - i
  {
    if i == 4 then end else Digits(Octet(ip, i)) + [Sep(i)] + PartsFrom(ip, end, i + 1)
  }

  lemma {:induction false} TextIsParts(ip: U32, end: string, i: nat)
    requires i <= 4
    ensures Octets(ip, 4) + end == Octets(ip, i) + PartsFrom(ip, end, i)
    decreases 4 - i
  {
    if i < 4 {
      TextIsParts(ip, end, i + 1);
      Regroup(Octets(ip, i), Digits(Octet(ip, i)), [Sep(i)], PartsFrom(ip, end, i + 1));
    }
  }

  lemma Regroup(a: string, b: string, c: string, d: string)
    ensures a + b + c + d == a + (b + c + d)
  {
  }

  lemma UpperNext(ip: nat, i: nat)
    ensures Upper(ip, i) == Octet(ip, i) + 0x100 * Upper(ip, i + 1)
  {
  }

  lemma NoFifthOctet(ip: U32)
    ensures Upper(ip, 4) == 0
  {
    assert Upper(ip, 1) < 0x100_0000;
    assert Upper(ip, 2) < 0x1_0000;
    assert Upper(ip, 3) < 0x100;
  }

  lemma ReadOctet(i: nat, n: nat, rest: string, upper: nat, end: string)
    requires i < 4 && ReadOctets(rest, i + 1) == Some((upper, end))
    ensures ReadOctets(Digits(n) + [Sep(i)] + rest, i) == Some((n + 0x100 * upper, end))
  {
    ReadPartOf(n, Sep(i), rest);
  }

  lemma {:induction false} OctetsRead(ip: U32, end: string, i: nat)
    requires i <= 4
    ensures ReadOctets(PartsFrom(ip, end, i), i) == Some((Upper(ip, i), end))
    decreases 4 - i
  {
    if i == 4 {
      NoFifthOctet(ip);
    } else {
      OctetsRead(ip, end, i + 1);
      ReadOctet(i, Octet(ip, i), PartsFrom(ip, end, i + 1), Upper(ip, i + 1), end);
      UpperNext(ip, i);
    }
  }

  /** Reading undoes writing, for every address and port. */
  lemma ParseUndoesFormat(ip: U32, port: U16)
    ensures ParseIpv4(Ipv4Text(ip, port)) == Some((ip, port))
  {
    var end := Digits(port);
    TextIsParts(ip, end, 0);
    assert "" + PartsFrom(ip, end, 0) == PartsFrom(ip, end, 0);
    OctetsRead(ip, end, 0);
    DigitsRead(port);
  }

  lemma DigitsRead(port: U16)
    ensures Run(Digits(port)) == |Digits(port)| && Value(Digits(port)) == port
  {
    RunOf(Digits(port), "");
    assert Digits(port) + "" == Digits(port);
    ValueOfDigits(port);
  }

  lemma {:induction false} OctetsFit(ip: U32, n: nat)
    requires n <= 4
    ensures |Octets(ip, n)| <= 4 * n && '\0' !in Octets(ip, n)
  {
    if n > 0 {
      assert Pow10(3) == 1000;
      OctetsFit(ip, n - 1);
      DigitsFit(Octet(ip, n - 1), 3);
    }
  }

  lemma Ipv4TextFits(ip: U32, port: U16)
    ensures |Ipv4Text(ip, port)| <= 21 && '\0' !in Ipv4Text(ip, port)
  {
    assert Pow10(5) == 100_000;
    OctetsFit(ip, 4);
    DigitsFit(port, 5);
  }

  /** What is written into a buffer of 22 characters or more, whatever was there, is read back. */
  lemma DetailReadsBack(was: seq<char>, ip: U32, port: U16)
    requires |was| >= 22
    ensures ParseIpv4(CText(Filled(was, Ipv4Text(ip, port)))) == Some((ip, port))
  {
    Ipv4TextFits(ip, port);
    FilledReadsBack(was, Ipv4Text(ip, port));
    ParseUndoesFormat(ip, port);
  }

  lemma TextsAreDistinct(ip: U32, port: U16, ip': U32, port': U16)
    ensures Ipv4Text(ip, port) == Ipv4Text(ip', port') <==> ip == ip' && port == port'
  {
    ParseUndoesFormat(ip, port);
    ParseUndoesFormat(ip', port');
  }
}
