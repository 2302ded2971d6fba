/** The shell tokenizer, and the process chains read off nested `bash -c` commands. */
module ShellSplit {
  import Stacks
  import opened Wrappers

  /** Unicode's White_Space. */
  predicate IsWhitespace(c: char) {
    || '\U{9}' <= c <= '\U{D}' || c == ' ' || c == '\U{85}' || c == '\U{A0}' || c == '\U{1680}'
    || '\U{2000}' <= c <= '\U{200A}' || c == '\U{2028}' || c == '\U{2029}' || c == '\U{202F}' || c == '\U{205F}'
    || c == '\U{3000}'
  }

  predicate IsQuote(c: char) {
    c == '\'' || c == '"'
  }

  // ----- the tokenizer

  datatype State = State(parts: seq<string>, current: string, quote: Option<char>, escaped: bool)

  const START := State([], "", None, false)

  function Flush(parts: seq<string>, current: string): seq<string> {
    if current == "" then parts else parts + [current]
  }

  function Step(st: State, ch: char): State {
    if st.escaped then st.(current := st.current + [ch], escaped := false)
    else if ch == '\\' then st.(escaped := true)
    else if st.quote == Some(ch) then st.(quote := None)
    else if st.quote.Some? then st.(current := st.current + [ch])
    else if IsQuote(ch) then st.(quote := Some(ch))
    else if IsWhitespace(ch) then st.(parts := Flush(st.parts, st.current), current := "")
    else st.(current := st.current + [ch])
  }

  function Fold(st: State, s: string): State
    decreases |s|
  {
    if s == "" then st else Fold(Step(st, s[0]), s[1..])
  }

  function Split(command: string): seq<string> {
    var end := Fold(START, command);
    Flush(end.parts, end.current)
  }

  method SplitShell(command: string) returns (parts: seq<string>)
    ensures parts == Split(command)
  {
    var current, quote, escaped := "", None, false;
    parts := [];
    ghost var end := Fold(START, command);
    assert command[0..] == command;
    var i := 0;
    while i < |command|
      invariant i <= |command|
      invariant Fold(State(parts, current, quote, escaped), command[i..]) == end
    {
      var ch := command[i];
      assert command[i..][1..] == command[i + 1..];
      if escaped {
        current := current + [ch];
        escaped := false;
      } else if ch == '\\' {
        escaped := true;
      } else if quote == Some(ch) {
        quote := None;
      } else if quote.Some? {
        current := current + [ch];
      } else if ch == '\'' || ch == '"' {
        quote := Some(ch);
      } else if IsWhitespace(ch) {
        if current != "" {
          parts := parts + [current];
          current := "";
        }
      } else {
        current := current + [ch];
      }
      i := i + 1;
    }
    if current != "" {
      parts := parts + [current];
    }
  }

  // ----- what a command line means

  /** A command line is a sequence of these: a character between words, a plain character, one behind a backslash,
      or a quoted stretch whose characters may stand behind backslashes themselves. */
  datatype Piece = Gap(c: char) | Bare(c: char) | Escaped(c: char) | Quoted(q: char, body: seq<Inner>)

  datatype Inner = Plain(c: char) | Behind(c: char)

  function BodyText(body: seq<Inner>): string {
    if body == [] then "" else (if body[0].Plain? then [body[0].c] else ['\\', body[0].c]) + BodyText(body[1..])
  }

  function BodyValue(body: seq<Inner>): string {
    if body == [] then "" else [body[0].c] + BodyValue(body[1..])
  }

  predicate BodyOk(q: char, body: seq<Inner>) {
    forall x :: x in body && x.Plain? ==> x.c != q && x.c != '\\'
  }

  predicate PieceOk(p: Piece) {
    match p
    case Gap(c) => IsWhitespace(c)
    case Bare(c) => !IsWhitespace(c) && !IsQuote(c) && c != '\\'
    case Escaped(_) => true
    case Quoted(q, body) => IsQuote(q) && BodyOk(q, body)
  }

  predicate LineOk(line: seq<Piece>) {
    forall p :: p in line ==> PieceOk(p)
  }

  function PieceText(p: Piece): string {
    match p
    case Gap(c) => [c]
    case Bare(c) => [c]
    case Escaped(c) => ['\\', c]
    case Quoted(q, body) => [q] + BodyText(body) + [q]
  }

  function PieceValue(p: Piece): string {
    match p
    case Gap(_) => ""
    case Bare(c) => [c]
    case Escaped(c) => [c]
    case Quoted(_, body) => BodyValue(body)
  }

  function Text(line: seq<Piece>): string {
    if line == [] then "" else PieceText(line[0]) + Text(line[1..])
  }

  /** The words of a line: the values between gaps, put together, without the empty ones. */
  function Words(line: seq<Piece>): seq<string> {
    WordsFrom("", line)
  }

  function WordsFrom(word: string, line: seq<Piece>): seq<string>
    decreases |line|
  {
    if line == [] then Flush([], word)
    else if line[0].Gap? then Flush([], word) + WordsFrom("", line[1..])
    else WordsFrom(word + PieceValue(line[0]), line[1..])
  }

  // ----- the tokenizer reads every line for what it means

  lemma {:induction false} FoldConcat(st: State, a: string, b: string)
    ensures Fold(st, a + b) == Fold(Fold(st, a), b)
    decreases |a|
  {
    if a == "" {
      assert a + b == b;
    } else {
      assert (a + b)[1..] == a[1..] + b;
      FoldConcat(Step(st, a[0]), a[1..], b);
    }
  }

  lemma {:induction false} FoldBody(st: State, q: char, body: seq<Inner>)
    requires st.quote == Some(q) && !st.escaped && q != '\\' && BodyOk(q, body)
    ensures Fold(st, BodyText(body)) == st.(current := st.current + BodyValue(body))
    decreases |body|
  {
    if body == [] {
      assert st.current + "" == st.current;
    } else {
      var x := body[0];
      var text := if x.Plain? then [x.c] else ['\\', x.c];
      var st' := st.(current := st.current + [x.c]);
      assert x in body;
      FoldConcat(st, text, BodyText(body[1..]));
      FoldShort(st, text);
      FoldBody(st', q, body[1..]);
      assert st.current + [x.c] + BodyValue(body[1..]) == st.current + ([x.c] + BodyValue(body[1..]));
    }
  }

  lemma FoldShort(st: State, s: string)
    ensures |s| == 1 ==> Fold(st, s) == Step(st, s[0])
    ensures |s| == 2 ==> Fold(st, s) == Step(Step(st, s[0]), s[1])
  {
    if |s| == 1 {
      assert s[1..] == "";
    } else if |s| == 2 {
      assert s[1..][0] == s[1] && s[1..][1..] == "";
      assert Fold(Step(st, s[0]), s[1..]) == Fold(Step(Step(st, s[0]), s[1]), s[1..][1..]);
    }
  }

  predicate Outside(st: State) {
    st.quote.None? && !st.escaped
  }

  lemma FoldPiece(st: State, p: Piece)
    requires Outside(st) && PieceOk(p)
    ensures Fold(st, PieceText(p)) ==
      if p.Gap? then State(Flush(st.parts, st.current), "", None, false)
      else st.(current := st.current + PieceValue(p))
  {
    match p
    case Gap(_) | Bare(_) | Escaped(_) => FoldShort(st, PieceText(p));
    case Quoted(q, body) =>
      var open := st.(quote := Some(q));
      FoldConcat(st, [q] + BodyText(body), [q]);
      FoldConcat(st, [q], BodyText(body));
      FoldShort(st, [q]);
      FoldBody(open, q, body);
      FoldShort(Fold(open, BodyText(body)), [q]);
  }

  lemma {:induction false} FoldLine(st: State, line: seq<Piece>)
    requires Outside(st) && LineOk(line)
    ensures var end := Fold(st, Text(line));
      Outside(end) && Flush(end.parts, end.current) == st.parts + WordsFrom(st.current, line)
    decreases |line|
  {
    if line == [] {
      assert st.parts + [] == st.parts;
    } else {
      var p, rest := line[0], line[1..];
      assert p in line;
      FoldConcat(st, PieceText(p), Text(rest));
      FoldPiece(st, p);
      FoldLine(Fold(st, PieceText(p)), rest);
      if p.Gap? {
        FlushAppends(st.parts, st.current, WordsFrom("", rest));
      }
    }
  }

  lemma FlushAppends(parts: seq<string>, current: string, more: seq<string>)
    ensures Flush(parts, current) + more == parts + (Flush([], current) + more)
  {
  }

  /** Any mixture of plain, escaped and quoted writing, and any gaps: the tokenizer gives back the words. */
  lemma SplitIsWords(line: seq<Piece>)
    requires LineOk(line)
    ensures Split(Text(line)) == Words(line) && Outside(Fold(START, Text(line)))
  {
    FoldLine(START, line);
    assert [] + Words(line) == Words(line);
  }

  // ----- every command that ends outside quotes is such a line

  /** The rest of a quoted stretch and what follows its closing quote. */
  function ParseBody(q: char, s: string): (r: Option<(seq<Inner>, string)>)
    ensures r.Some? ==> |r.value.1| < |s|
  {
    if s == "" then None
    else if s[0] == q then Some(([], s[1..]))
    else if s[0] == '\\' then
      if |s| < 2 then None
      else match ParseBody(q, s[2..]) case Some((body, rest)) => Some(([Behind(s[1])] + body, rest)) case None => None
    else match ParseBody(q, s[1..]) case Some((body, rest)) => Some(([Plain(s[0])] + body, rest)) case None => None
  }

  function ParsePiece(s: string): (r: Option<(Piece, string)>)
    requires s != ""
    ensures r.Some? ==> |r.value.1| < |s|
  {
    if s[0] == '\\' then if |s| < 2 then None else Some((Escaped(s[1]), s[2..]))
    else if IsQuote(s[0]) then
      match ParseBody(s[0], s[1..]) case Some((body, rest)) => Some((Quoted(s[0], body), rest)) case None => None
    else if IsWhitespace(s[0]) then Some((Gap(s[0]), s[1..]))
    else Some((Bare(s[0]), s[1..]))
  }

  function ParseLine(s: string): Option<seq<Piece>>
    decreases |s|
  {
    if s == "" then Some([])
    else
      match ParsePiece(s)
      case None => None
      case Some((p, rest)) =>
        match ParseLine(rest) case Some(line) => Some([p] + line) case None => None
  }

  lemma {:induction false} ParseBodyReads(st: State, q: char, s: string)
    requires IsQuote(q) && st.quote == Some(q) && !st.escaped
    ensures var r := ParseBody(q, s);
      && (r.Some? ==> BodyOk(q, r.value.0) && BodyText(r.value.0) + [q] + r.value.1 == s)
      && (r.None? ==> !Outside(Fold(st, s)))
    decreases |s|
  {
    if s == "" || s[0] == q {
    } else if s[0] == '\\' {
      if |s| == 1 {
        FoldShort(st, s);
      } else {
        FoldTwo(st, s);
        ParseBodyReads(Step(Step(st, s[0]), s[1]), q, s[2..]);
        var r := ParseBody(q, s[2..]);
        if r.Some? {
          BodyCons(Behind(s[1]), r.value.0, q, r.value.1);
          assert s == ['\\', s[1]] + s[2..];
        }
      }
    } else {
      ParseBodyReads(Step(st, s[0]), q, s[1..]);
      var r := ParseBody(q, s[1..]);
      if r.Some? {
        BodyCons(Plain(s[0]), r.value.0, q, r.value.1);
        assert s == [s[0]] + s[1..];
      }
    }
  }

  lemma FoldTwo(st: State, s: string)
    requires |s| >= 2
    ensures Fold(st, s) == Fold(Step(Step(st, s[0]), s[1]), s[2..])
  {
    assert s[1..][1..] == s[2..];
  }

  lemma BodyCons(x: Inner, body: seq<Inner>, q: char, rest: string)
    ensures BodyText([x] + body) + [q] + rest ==
      (if x.Plain? then [x.c] else ['\\', x.c]) + (BodyText(body) + [q] + rest)
  {
    assert ([x] + body)[1..] == body;
    var text := if x.Plain? then [x.c] else ['\\', x.c];
    assert text + BodyText(body) + [q] + rest == text + (BodyText(body) + [q] + rest);
  }

  lemma ParsePieceReads(st: State, s: string)
    requires Outside(st) && s != ""
    ensures var r := ParsePiece(s);
      && (r.Some? ==> PieceOk(r.value.0) && PieceText(r.value.0) + r.value.1 == s)
      && (r.None? ==> !Outside(Fold(st, s)))
  {
    if s[0] == '\\' {
      if |s| == 1 {
        FoldShort(st, s);
      } else {
        assert ['\\', s[1]] + s[2..] == s;
      }
    } else if IsQuote(s[0]) {
      ParseBodyReads(st.(quote := Some(s[0])), s[0], s[1..]);
      var r := ParseBody(s[0], s[1..]);
      if r.Some? {
        var body, rest, q := r.value.0, r.value.1, [s[0]];
        assert q + BodyText(body) + q + rest == q + (BodyText(body) + q + rest) == s;
      }
    } else {
      assert [s[0]] + s[1..] == s;
    }
  }

  lemma {:induction false} ParseLineReads(st: State, s: string)
    requires Outside(st)
    ensures var r := ParseLine(s);
      && (r.Some? ==> LineOk(r.value) && Text(r.value) == s)
      && (r.None? ==> !Outside(Fold(st, s)))
    decreases |s|
  {
    if s != "" {
      ParsePieceReads(st, s);
      var r := ParsePiece(s);
      if r.Some? {
        var p, rest := r.value.0, r.value.1;
        FoldConcat(st, PieceText(p), rest);
        FoldPiece(st, p);
        ParseLineReads(Fold(st, PieceText(p)), rest);
        var l := ParseLine(rest);
        if l.Some? {
          assert ([p] + l.value)[1..] == l.value;
        }
      }
    }
  }

  /** A command ends outside quotes and not behind a backslash exactly when it is a line, and then the words of the
      line are its parts. */
  lemma SplitMeans(command: string)
    ensures Outside(Fold(START, command)) <==> exists line :: LineOk(line) && Text(line) == command
    ensures forall line :: LineOk(line) && Text(line) == command ==> Split(command) == Words(line)
  {
    ParseLineReads(START, command);
    var r := ParseLine(command);
    assert r.Some? ==> LineOk(r.value) && Text(r.value) == command;
    forall line | LineOk(line) && Text(line) == command
      ensures Outside(Fold(START, command)) && Split(command) == Words(line)
    {
      SplitIsWords(line);
    }
  }

  /** A backslash with nothing after it is ignored. */
  lemma TrailingBackslash(command: string)
    requires !Fold(START, command).escaped
    ensures Fold(START, command + ['\\']).escaped && Split(command + ['\\']) == Split(command)
  {
    FoldConcat(START, command, ['\\']);
    FoldShort(Fold(START, command), ['\\']);
  }

  /** Only such a command ends behind a backslash. */
  lemma {:induction false} EndsBehindBackslash(st: State, s: string)
    requires s != "" && Fold(st, s).escaped
    ensures s[|s| - 1] == '\\' && !Fold(st, s[..|s| - 1]).escaped
    decreases |s|
  {
    if |s| == 1 {
      FoldShort(st, s);
    } else {
      EndsBehindBackslash(Step(st, s[0]), s[1..]);
      assert s[..|s| - 1][1..] == s[1..][..|s| - 2];
    }
  }

  /** An open quote is closed at the end. */
  lemma OpenQuote(command: string)
    requires var end := Fold(START, command); !end.escaped && end.quote.Some?
    ensures var closed := command + [Fold(START, command).quote.value];
      Outside(Fold(START, closed)) && Split(closed) == Split(command)
  {
    var end := Fold(START, command);
    FoldConcat(START, command, [end.quote.value]);
    FoldShort(end, [end.quote.value]);
    QuoteIsQuote(START, command);
  }

  lemma {:induction false} QuoteIsQuote(st: State, s: string)
    requires st.quote.Some? ==> IsQuote(st.quote.value)
    ensures Fold(st, s).quote.Some? ==> IsQuote(Fold(st, s).quote.value)
    decreases |s|
  {
    if s != "" {
      QuoteIsQuote(Step(st, s[0]), s[1..]);
    }
  }

  // ----- quoting words so that they come back

  /** A word with every character behind a backslash. */
  function Escape(word: string): string {
    if word == "" then "" else ['\\', word[0]] + Escape(word[1..])
  }

  /** Escaped words, one space between them. */
  function Command(words: seq<string>): string {
    if words == [] then "" else if |words| == 1 then Escape(words[0]) else Escape(words[0]) + " " + Command(words[1..])
  }

  lemma {:induction false} FoldEscape(st: State, word: string)
    requires Outside(st)
    ensures Fold(st, Escape(word)) == st.(current := st.current + word)
    decreases |word|
  {
    if word == "" {
      assert st.current + "" == st.current;
    } else {
      var two := ['\\', word[0]];
      FoldConcat(st, two, Escape(word[1..]));
      FoldShort(st, two);
      FoldEscape(st.(current := st.current + [word[0]]), word[1..]);
      assert st.current + [word[0]] + word[1..] == st.current + word;
    }
  }

  lemma {:induction false} FoldCommand(parts: seq<string>, words: seq<string>)
    ensures var end := Fold(State(parts, "", None, false), Command(words));
      Flush(end.parts, end.current) == parts + Stacks.NonEmpty(words)
    decreases |words|
  {
    var st := State(parts, "", None, false);
    if words != [] {
      FoldEscape(st, words[0]);
      var st' := State(parts, words[0], None, false);
      assert "" + words[0] == words[0];
      FlushAppends(parts, words[0], Stacks.NonEmpty(words[1..]));
      if |words| == 1 {
        FlushAppends(parts, words[0], []);
        assert Flush(parts, words[0]) + [] == Flush(parts, words[0]);
      } else {
        var rest := Command(words[1..]);
        FoldConcat(st, Escape(words[0]) + " ", rest);
        FoldConcat(st, Escape(words[0]), " ");
        FoldShort(st', " ");
        FoldCommand(Flush(parts, words[0]), words[1..]);
      }
    }
  }

  /** Splitting undoes escaping: the words come back, but for the empty ones. */
  lemma SplitUndoesCommand(words: seq<string>)
    ensures Split(Command(words)) == Stacks.NonEmpty(words)
    ensures Split(Command(words)) == words <==> "" !in words
  {
    FoldCommand([], words);
    Stacks.NonEmptyLength(words);
  }

  // ----- how long the parts are

  lemma {:induction false} FoldSize(st: State, s: string)
    requires "" !in st.parts
    ensures var end := Fold(st, s);
      "" !in end.parts && Stacks.JoinLength(end.parts) + |end.current| <= Stacks.JoinLength(st.parts) + |st.current| + |s|
    decreases |s|
  {
    if s != "" {
      JoinLengthAppend(st.parts, st.current);
      FoldSize(Step(st, s[0]), s[1..]);
    }
  }

  lemma {:induction false} JoinLengthAppend(parts: seq<string>, p: string)
    ensures Stacks.JoinLength(parts + [p]) == Stacks.JoinLength(parts) + |p| + 1
  {
    if parts != [] {
      assert (parts + [p])[1..] == parts[1..] + [p];
      JoinLengthAppend(parts[1..], p);
    }
  }

  /** No part is empty, and the parts with one character between them are no longer than the command. */
  lemma PartsFit(command: string)
    ensures "" !in Split(command)
    ensures Stacks.JoinLength(Split(command)) <= |command| + 1
  {
    FoldSize(START, command);
    var end := Fold(START, command);
    JoinLengthAppend(end.parts, end.current);
  }

  /** The lists of parts there are: exactly the lists of non-empty words. */
  lemma PartsAreNonEmptyWords(words: seq<string>)
    ensures (exists command :: Split(command) == words) <==> "" !in words
  {
    if command :| Split(command) == words {
      PartsFit(command);
    }
    SplitUndoesCommand(words);
  }
}
