/** Which part of a command names its program, behind any list of wrappers, and what chain follows from it. */
module ChainParts {
  import opened Wrappers
  import opened ShellSplit
  import opened ProcessChain

  /** A wrapper, with the option behind it if there is one. */
  datatype Wrapper = Wrapper(word: string, option: Option<string>)

  function PartsOf(w: Wrapper): (r: seq<string>)
    ensures |r| > 0 && r[0] == w.word
  {
    [w.word] + match w.option case Some(o) => [o] case None => []
  }

  function AllParts(ws: seq<Wrapper>): seq<string> {
    if ws == [] then [] else PartsOf(ws[0]) + AllParts(ws[1..])
  }

  predicate IsWrapper(names: Names, w: Wrapper) {
    names.fileName(w.word) in WRAPPERS && (w.option.Some? ==> IsOption(w.option.value))
  }

  /** `parts` are these wrappers and then `rest`: a wrapper takes along one option right behind it, and `rest` starts with
      no further wrapper. */
  ghost predicate Wraps(names: Names, ws: seq<Wrapper>, rest: seq<string>, parts: seq<string>)
    decreases |ws|
  {
    if ws == [] then parts == rest && (rest != [] ==> names.fileName(rest[0]) !in WRAPPERS)
    else
      && IsWrapper(names, ws[0])
      && exists tail: seq<string> ::
           parts == PartsOf(ws[0]) + tail && Wraps(names, ws[1..], rest, tail)
           && (ws[0].option.None? && tail != [] ==> !IsOption(tail[0]))
  }

  /** Where the program is does not depend on what stands before the place one starts from. */
  lemma {:induction false} ProgramShifts(names: Names, before: seq<string>, parts: seq<string>, i: nat)
    requires i <= |parts|
    ensures Program(names, before + parts, |before| + i) == |before| + Program(names, parts, i)
    decreases |parts| - i
  {
    var all := before + parts;
    if i < |parts| {
      assert all[|before| + i] == parts[i];
      assert i + 1 < |parts| ==> all[|before| + i + 1] == parts[i + 1];
      if names.fileName(parts[i]) in WRAPPERS {
        ProgramShifts(names, before, parts, if i + 1 < |parts| && IsOption(parts[i + 1]) then i + 2 else i + 1);
      }
    }
  }

  /** One wrapper in front. */
  lemma ProgramBehindOne(names: Names, w: Wrapper, tail: seq<string>)
    requires IsWrapper(names, w) && (w.option.None? && tail != [] ==> !IsOption(tail[0]))
    ensures Program(names, PartsOf(w) + tail, 0) == |PartsOf(w)| + Program(names, tail, 0)
  {
    var parts := PartsOf(w) + tail;
    ProgramShifts(names, PartsOf(w), tail, 0);
    assert parts[0] == w.word;
    match w.option {
      case Some(o) => assert parts[1] == o;
      case None => assert tail != [] ==> parts[1] == tail[0];
    }
  }

  /** The program is the first part of the rest. */
  predicate ProgramStarts(names: Names, parts: seq<string>, rest: seq<string>) {
    |rest| <= |parts| && Program(names, parts, 0) == |parts| - |rest| && parts[|parts| - |rest|..] == rest
  }

  lemma StartsBehindNone(names: Names, rest: seq<string>)
    requires rest != [] ==> names.fileName(rest[0]) !in WRAPPERS
    ensures ProgramStarts(names, rest, rest)
  {
  }

  lemma StartsBehindOne(names: Names, w: Wrapper, tail: seq<string>, rest: seq<string>)
    requires IsWrapper(names, w) && (w.option.None? && tail != [] ==> !IsOption(tail[0]))
    requires ProgramStarts(names, tail, rest)
    ensures ProgramStarts(names, PartsOf(w) + tail, rest)
  {
    ProgramBehindOne(names, w, tail);
    EndOfBoth(PartsOf(w), tail, |rest|);
  }

  lemma EndOfBoth(a: seq<string>, b: seq<string>, n: nat)
    requires n <= |b|
    ensures (a + b)[|a + b| - n..] == b[|b| - n..]
  {
  }

  /** Behind any list of wrappers the program is the first part of the rest. */
  lemma {:induction false} ProgramBehindWrappers(names: Names, ws: seq<Wrapper>, rest: seq<string>, parts: seq<string>)
    requires Wraps(names, ws, rest, parts)
    ensures ProgramStarts(names, parts, rest)
    decreases |ws|
  {
    if ws == [] {
      StartsBehindNone(names, rest);
    } else {
      var tail: seq<string> :| parts == PartsOf(ws[0]) + tail && Wraps(names, ws[1..], rest, tail)
        && (ws[0].option.None? && tail != [] ==> !IsOption(tail[0]));
      ProgramBehindWrappers(names, ws[1..], rest, tail);
      StartsBehindOne(names, ws[0], tail, rest);
    }
  }

  /** And every list of parts is some wrappers and a rest. */
  lemma {:induction false} PartsAreWrapped(names: Names, parts: seq<string>) returns (ws: seq<Wrapper>, rest: seq<string>)
    ensures Wraps(names, ws, rest, parts)
    decreases |parts|
  {
    if parts == [] || names.fileName(parts[0]) !in WRAPPERS {
      ws, rest := [], parts;
    } else {
      var option := if |parts| > 1 && IsOption(parts[1]) then Some(parts[1]) else None;
      var w := Wrapper(parts[0], option);
      var tail := parts[|PartsOf(w)|..];
      assert parts == PartsOf(w) + tail;
      var more;
      more, rest := PartsAreWrapped(names, tail);
      ws := [w] + more;
      assert ws[1..] == more;
    }
  }

  // ----- the chain

  /** The first flag of the rest that a command follows. */
  predicate FirstFlag(rest: seq<string>, k: nat) {
    && 0 < k && k + 1 < |rest| && rest[k] in FLAGS
    && forall j :: 0 < j < k ==> rest[j] !in FLAGS
  }

  predicate NoFlag(rest: seq<string>) {
    forall j :: 0 < j < |rest| - 1 ==> rest[j] !in FLAGS
  }

  lemma FlagIsFirst(parts: seq<string>, start: nat, rest: seq<string>)
    requires start + |rest| == |parts| && rest == parts[start..] && rest != []
    ensures match FlagFrom(parts, start + 1)
      case Some(k) => k > start && FirstFlag(rest, k - start)
      case None => NoFlag(rest)
  {
    match FlagFrom(parts, start + 1) {
      case Some(k) =>
        forall j | 0 < j < k - start ensures rest[j] !in FLAGS {
          assert rest[j] == parts[start + j];
        }
      case None =>
        forall j | 0 < j < |rest| - 1 ensures rest[j] !in FLAGS {
          assert rest[j] == parts[start + j];
        }
    }
  }

  /** What the chain of a command must be, given its parts behind the wrappers: nothing if there is no program, its
      process, and for a shell with a flag the chain of the command behind the first one. */
  ghost predicate ChainOf(names: Names, rest: seq<string>, chain: seq<string>) {
    if rest == [] || names.process(rest[0]).None? then chain == []
    else
      var process := names.process(rest[0]).value;
      if process !in SHELLS || NoFlag(rest) then chain == [process]
      else exists k: nat :: FirstFlag(rest, k) && chain == [process] + Chain(names, rest[k + 1])
  }

  /** The program and the command inside, in terms of the parts behind the wrappers. */
  lemma InsideBehindWrappers(names: Names, parts: seq<string>, rest: seq<string>)
    requires ProgramStarts(names, parts, rest)
    ensures Process(names, parts) == if rest == [] then None else names.process(rest[0])
    ensures Process(names, parts).Some? && Process(names, parts).value in SHELLS ==>
      match Inside(names, parts)
      case Some(inside) => exists k: nat :: FirstFlag(rest, k) && rest[k + 1] == inside
      case None => NoFlag(rest)
  {
    var start := |parts| - |rest|;
    if rest != [] {
      assert rest[0] == parts[start];
      FlagIsFirst(parts, start, rest);
      match FlagFrom(parts, start + 1) {
        case Some(k) => assert FirstFlag(rest, k - start) && rest[k - start + 1] == parts[k + 1];
        case None =>
      }
    }
  }

  /** The chain of every command, whatever wrappers stand in front. */
  lemma ChainBehindWrappers(names: Names, command: string, ws: seq<Wrapper>, rest: seq<string>)
    requires Wraps(names, ws, rest, Split(command))
    ensures ChainOf(names, rest, Chain(names, command))
  {
    var parts := Split(command);
    ProgramBehindWrappers(names, ws, rest, parts);
    InsideBehindWrappers(names, parts, rest);
    ChainIs(names, command);
    if Process(names, parts).Some? && Process(names, parts).value in SHELLS && Inside(names, parts).Some? {
      var k: nat :| FirstFlag(rest, k) && rest[k + 1] == Inside(names, parts).value;
      FlagContradictsNone(rest, k);
    }
  }

  lemma FlagContradictsNone(rest: seq<string>, k: nat)
    requires FirstFlag(rest, k)
    ensures !NoFlag(rest)
  {
  }

  lemma ChainIs(names: Names, command: string)
    ensures var parts := Split(command);
      && (Process(names, parts).None? ==> Chain(names, command) == [])
      && (Process(names, parts).Some? ==>
            Chain(names, command) == [Process(names, parts).value]
              + if Inside(names, parts).Some? then Chain(names, Inside(names, parts).value) else [])
  {
    if Inside(names, Split(command)).Some? {
      InsideIsShorter(names, command);
    }
  }
}
