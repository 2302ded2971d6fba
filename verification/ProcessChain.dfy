/** The chain of processes a command starts: the program it names, and through `bash -c` the programs inside. */
module ProcessChain {
  import opened ShellSplit
  import opened Wrappers
  import Stacks

  const WRAPPERS: seq<string> := ["sudo", "env", "command", "time", "timeout", "nice", "nohup"]
  const SHELLS: seq<string> := ["bash", "sh", "zsh"]
  const FLAGS: seq<string> := ["-c", "-lc", "-cl"]

  /** What is read off a part: the last component of its path, and the process name it stands for, if any. */
  datatype Names = Names(fileName: string -> string, process: string -> Option<string>)

  predicate IsOption(part: string) {
    part != "" && part[0] == '-'
  }

  /** The first part that is not a wrapper such as `sudo`, nor an option right behind one. */
  function Program(names: Names, parts: seq<string>, idx: nat): (r: nat)
    requires idx <= |parts|
    ensures idx <= r <= |parts|
    ensures r < |parts| ==> names.fileName(parts[r]) !in WRAPPERS
    decreases |parts| - idx
  {
    if idx < |parts| && names.fileName(parts[idx]) in WRAPPERS then
      Program(names, parts, if idx + 1 < |parts| && IsOption(parts[idx + 1]) then idx + 2 else idx + 1)
    else idx
  }

  /** The first flag from `k` on that is followed by a command. */
  function FlagFrom(parts: seq<string>, k: nat): (r: Option<nat>)
    ensures r.Some? ==> k <= r.value && r.value + 1 < |parts| && parts[r.value] in FLAGS
    ensures r.Some? ==> forall j :: k <= j < r.value ==> parts[j] !in FLAGS
    ensures r.None? ==> forall j :: k <= j < |parts| - 1 ==> parts[j] !in FLAGS
    decreases |parts| - k
  {
    if k + 1 >= |parts| then None else if parts[k] in FLAGS then Some(k) else FlagFrom(parts, k + 1)
  }

  function Process(names: Names, parts: seq<string>): Option<string> {
    var idx := Program(names, parts, 0);
    if idx < |parts| then names.process(parts[idx]) else None
  }

  /** The command inside, for a shell with a flag. */
  function Inside(names: Names, parts: seq<string>): (r: Option<string>)
    ensures r.Some? ==> exists k: nat :: 2 <= k < |parts| && parts[k - 1] in FLAGS && parts[k] == r.value
  {
    var process := Process(names, parts);
    if process.None? || process.value !in SHELLS then None
    else match FlagFrom(parts, Program(names, parts, 0) + 1) case Some(k) => Some(parts[k + 1]) case None => None
  }

  // ----- a nested command is shorter

  lemma {:induction false} TwoPartsLength(parts: seq<string>, k: nat)
    requires k + 1 < |parts|
    ensures |parts[k]| + 1 + |parts[k + 1]| + 1 <= Stacks.JoinLength(parts)
  {
    if k == 0 {
      assert parts[1..][0] == parts[1];
    } else {
      TwoPartsLength(parts[1..], k - 1);
    }
  }

  /** Before the command inside a command stand at least a shell's name, a flag and a character after each. */
  lemma InsideIsShorter(names: Names, command: string)
    requires Inside(names, Split(command)).Some?
    ensures |Inside(names, Split(command)).value| + 5 <= |command|
  {
    var parts := Split(command);
    var k: nat :| 2 <= k < |parts| && parts[k - 1] in FLAGS && parts[k] == Inside(names, parts).value;
    PartsFit(command);
    assert parts[0] in parts;
    TwoPartsLength(parts[1..], k - 2);
  }

  /** The chain of a command. The recursion ends because a command inside a command is shorter. */
  function Chain(names: Names, command: string): seq<string>
    decreases |command|
  {
    var parts := Split(command);
    match Process(names, parts)
    case None => []
    case Some(process) =>
      match Inside(names, parts)
      case None => [process]
      case Some(inside) => InsideIsShorter(names, command); [process] + Chain(names, inside)
  }

  method CommandProcessChain(names: Names, command: string) returns (chain: seq<string>)
    ensures chain == Chain(names, command)
    decreases |command|, 1
  {
    var parts := SplitShell(command);
    chain := ProcessChainFromParts(names, parts, command);
  }

  method ProcessChainFromParts(names: Names, parts: seq<string>, ghost command: string) returns (chain: seq<string>)
    requires parts == Split(command)
    ensures chain == Chain(names, command)
    decreases |command|, 0
  {
    if parts == [] {
      return [];
    }
    var idx := SkipWrappers(names, parts);
    if idx >= |parts| || names.process(parts[idx]).None? {
      return [];
    }
    var process := names.process(parts[idx]).value;
    chain := [process];
    if process in SHELLS {
      var flag := FindFlag(parts, idx + 1);
      if flag.Some? {
        InsideIsShorter(names, command);
        var inside := CommandProcessChain(names, parts[flag.value + 1]);
        chain := chain + inside;
      }
    }
  }

  /** The loop over the wrappers in front. */
  method SkipWrappers(names: Names, parts: seq<string>) returns (idx: nat)
    ensures idx == Program(names, parts, 0)
  {
    idx := 0;
    while idx < |parts| && names.fileName(parts[idx]) in WRAPPERS
      invariant idx <= |parts| && Program(names, parts, idx) == Program(names, parts, 0)
    {
      idx := idx + 1;
      if idx < |parts| && IsOption(parts[idx]) {
        idx := idx + 1;
      }
    }
  }

  /** The loop over the shell's arguments. */
  method FindFlag(parts: seq<string>, start: nat) returns (flag: Option<nat>)
    ensures flag == FlagFrom(parts, start)
  {
    var k := start;
    while k + 1 < |parts|
      invariant start <= k && FlagFrom(parts, k) == FlagFrom(parts, start)
    {
      if parts[k] in FLAGS {
        return Some(k);
      }
      k := k + 1;
    }
    return None;
  }

  // ----- what the chains are

  /** A chain has at most a fifth as many processes, rounded up, as its command has characters, and every process in it
      but the last is a shell. */
  lemma {:induction false} ChainIsShort(names: Names, command: string)
    ensures 5 * |Chain(names, command)| <= |command| + 4
    ensures forall i :: 0 <= i < |Chain(names, command)| - 1 ==> Chain(names, command)[i] in SHELLS
    decreases |command|
  {
    var parts := Split(command);
    PartsFit(command);
    if Inside(names, parts).Some? {
      InsideIsShorter(names, command);
      ChainIsShort(names, Inside(names, parts).value);
    } else if command == "" {
      assert Split("") == [];
    }
  }

  predicate KnowsBash(names: Names) {
    names.fileName("bash") == "bash" && names.process("bash") == Some("bash")
  }

  /** `bash -c` around a command. */
  function Nest(n: nat, command: string): string {
    if n == 0 then command else Command(["bash", "-c", Nest(n - 1, command)])
  }

  function Bashes(n: nat): seq<string> {
    if n == 0 then [] else ["bash"] + Bashes(n - 1)
  }

  lemma NonEmptyOfThree(a: string, b: string, c: string)
    requires a != "" && b != ""
    ensures Stacks.NonEmpty([a, b, c]) == [a, b] + if c == "" then [] else [c]
  {
    assert [a, b, c][1..] == [b, c] && [b, c][1..] == [c] && [c][1..] == [];
    assert Stacks.NonEmpty([c]) == if c == "" then [] else [c];
    assert Stacks.NonEmpty([b, c]) == [b] + Stacks.NonEmpty([c]);
  }

  lemma BashParts(command: string)
    ensures Split(Command(["bash", "-c", command])) == ["bash", "-c"] + if command == "" then [] else [command]
  {
    SplitUndoesCommand(["bash", "-c", command]);
    NonEmptyOfThree("bash", "-c", command);
  }

  lemma ChainOfBash(names: Names, command: string)
    requires KnowsBash(names)
    ensures Chain(names, Command(["bash", "-c", command])) == ["bash"] + Chain(names, command)
  {
    BashParts(command);
    var parts := Split(Command(["bash", "-c", command]));
    assert parts[0] == "bash" && parts[1] == "-c";
    assert Program(names, parts, 0) == 0;
    if command == "" {
      assert FlagFrom(parts, 1).None?;
      assert Split("") == [];
    } else {
      assert FlagFrom(parts, 1) == Some(1) && parts[2] == command;
    }
  }

  lemma NestOnce(names: Names, n: nat, inner: string, chain: seq<string>)
    requires KnowsBash(names) && Chain(names, inner) == Bashes(n) + chain
    ensures Chain(names, Command(["bash", "-c", inner])) == Bashes(n + 1) + chain
  {
    ChainOfBash(names, inner);
    Regroup(Bashes(n), chain);
  }

  lemma Regroup(a: seq<string>, b: seq<string>)
    ensures ["bash"] + (a + b) == ["bash"] + a + b
    ensures [] + a == a
  {
  }

  /** However deep a command is nested in `bash -c`, quoted each time, its chain comes out behind the shells. */
  lemma {:induction false} NestedChain(names: Names, n: nat, command: string)
    requires KnowsBash(names)
    ensures Chain(names, Nest(n, command)) == Bashes(n) + Chain(names, command)
  {
    var chain := Chain(names, command);
    if n == 0 {
      Regroup(chain, []);
    } else {
      NestedChain(names, n - 1, command);
      NestOnce(names, n - 1, Nest(n - 1, command), chain);
    }
  }
}
