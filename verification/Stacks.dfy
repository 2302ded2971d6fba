/** Folded stacks: frames joined by semicolons. */
module Stacks {
  /** `str::split(';')`: always at least one piece. */
  function Split(s: string): (r: seq<string>)
    ensures r != []
  {
    if s == "" then [""]
    else
      var rest := Split(s[1..]);
      if s[0] == ';' then [""] + rest else [[s[0]] + rest[0]] + rest[1..]
  }

  function Join(frames: seq<string>): string {
    if frames == [] then "" else if |frames| == 1 then frames[0] else frames[0] + ";" + Join(frames[1..])
  }

  function NonEmpty(pieces: seq<string>): (r: seq<string>)
    ensures forall f :: f in r ==> f != "" && f in pieces
  {
    if pieces == [] then [] else (if pieces[0] == "" then [] else [pieces[0]]) + NonEmpty(pieces[1..])
  }

  /** The frames of a stack, root first. */
  function Frames(stack: string): seq<string> {
    NonEmpty(Split(stack))
  }

  /** No frame of the stack is empty. */
  predicate Clean(stack: string) {
    stack == "" || "" !in Split(stack)
  }

  lemma {:induction false} PiecesAreWhole(s: string)
    ensures forall p :: p in Split(s) ==> ';' !in p
  {
    if s != "" {
      PiecesAreWhole(s[1..]);
    }
  }

  lemma {:induction false} JoinSplit(s: string)
    ensures Join(Split(s)) == s
  {
    if s != "" {
      JoinSplit(s[1..]);
      var rest := Split(s[1..]);
      assert [s[0]] + s[1..] == s;
      if s[0] == ';' {
        assert ([""] + rest)[1..] == rest;
        assert "" + ";" + s[1..] == [s[0]] + s[1..];
      } else {
        JoinPrepend(s[0], rest);
      }
    }
  }

  lemma JoinPrepend(c: char, pieces: seq<string>)
    requires pieces != []
    ensures Join([[c] + pieces[0]] + pieces[1..]) == [c] + Join(pieces)
  {
    var r := [[c] + pieces[0]] + pieces[1..];
    assert r[1..] == pieces[1..];
    if |pieces| > 1 {
      assert [c] + pieces[0] + ";" + Join(pieces[1..]) == [c] + (pieces[0] + ";" + Join(pieces[1..]));
    }
  }

  /** How long a join is. */
  function JoinLength(frames: seq<string>): nat {
    if frames == [] then 0 else |frames[0]| + 1 + JoinLength(frames[1..])
  }

  lemma {:induction false} JoinHasLength(frames: seq<string>)
    ensures |Join(frames)| == if frames == [] then 0 else JoinLength(frames) - 1
  {
    if |frames| > 1 {
      JoinHasLength(frames[1..]);
    } else if |frames| == 1 {
      assert JoinLength(frames[1..]) == 0;
    }
  }

  lemma {:induction false} NonEmptyLength(pieces: seq<string>)
    ensures JoinLength(NonEmpty(pieces)) <= JoinLength(pieces)
    ensures JoinLength(NonEmpty(pieces)) == JoinLength(pieces) <==> "" !in pieces
    ensures "" !in pieces ==> NonEmpty(pieces) == pieces
  {
    if pieces != [] {
      NonEmptyLength(pieces[1..]);
      assert pieces == [pieces[0]] + pieces[1..];
      if pieces[0] != "" {
        assert ([pieces[0]] + NonEmpty(pieces[1..]))[1..] == NonEmpty(pieces[1..]);
      } else {
        assert [] + NonEmpty(pieces[1..]) == NonEmpty(pieces[1..]);
      }
    }
  }

  /** Joining the frames gives the stack back exactly when none of its frames is empty. */
  lemma JoinFramesIff(stack: string)
    ensures Join(Frames(stack)) == stack <==> Clean(stack)
  {
    var pieces := Split(stack);
    JoinSplit(stack);
    NonEmptyLength(pieces);
    JoinHasLength(pieces);
    JoinHasLength(Frames(stack));
    if stack == "" {
      assert pieces == [""];
      assert NonEmpty([""]) == [] + NonEmpty([""][1..]);
    }
  }

  lemma {:induction false} SplitPlain(f: string)
    requires ';' !in f
    ensures Split(f) == [f]
  {
    if f != "" {
      SplitPlain(f[1..]);
      assert [f[0]] + f[1..] == f;
    }
  }

  lemma {:induction false} SplitAfter(f: string, rest: string)
    requires ';' !in f
    ensures Split(f + ";" + rest) == [f] + Split(rest)
  {
    var s := f + ";" + rest;
    if f == "" {
      assert s[1..] == rest;
    } else {
      assert s[1..] == f[1..] + ";" + rest;
      SplitAfter(f[1..], rest);
      assert [f[0]] + f[1..] == f;
    }
  }

  /** Frames without semicolons survive the join. */
  lemma {:induction false} SplitJoin(frames: seq<string>)
    requires frames != [] && forall f :: f in frames ==> ';' !in f
    ensures Split(Join(frames)) == frames
  {
    assert frames[0] in frames;
    if |frames| == 1 {
      SplitPlain(frames[0]);
    } else {
      SplitJoin(frames[1..]);
      SplitAfter(frames[0], Join(frames[1..]));
      assert frames == [frames[0]] + frames[1..];
    }
  }

  /** Whatever frames are folded together, without semicolons in them, the stack is clean and its frames are the
      non-empty ones. */
  lemma FoldedIsClean(frames: seq<string>)
    requires forall f :: f in frames ==> ';' !in f
    ensures var stack := Join(NonEmpty(frames)); Clean(stack) && Frames(stack) == NonEmpty(frames)
  {
    var kept := NonEmpty(frames);
    if kept != [] {
      SplitJoin(kept);
      NonEmptyLength(kept);
    }
  }

  // ----- the folded counter

  type Counter = map<string, nat>

  /** Adds a stack to the counter: frames are normalised, empty ones dropped, a weight of 0 counts as 1, and a
      stack without frames is ignored. */
  function FoldedAdd(counter: Counter, frames: seq<string>, weight: nat, norm: string -> string): Counter {
    var stack := Join(NonEmpty(MapFrames(frames, norm)));
    if stack == "" then counter
    else counter[stack := (if stack in counter then counter[stack] else 0) + if weight == 0 then 1 else weight]
  }

  function MapFrames(frames: seq<string>, norm: string -> string): (r: seq<string>)
    ensures |r| == |frames| && forall i :: 0 <= i < |r| ==> r[i] == norm(frames[i])
  {
    seq(|frames|, i requires 0 <= i < |frames| => norm(frames[i]))
  }

  /** A counter's stacks have no empty frames, are not empty, and weigh something. */
  ghost predicate WellFolded(counter: Counter) {
    forall stack :: stack in counter ==> stack != "" && Clean(stack) && counter[stack] > 0
  }

  /** While the normaliser leaves no semicolons in a frame, every counter built by folding is well folded: so each
      stack is exactly its frames, and every stack is drawn. */
  lemma FoldedAddKeepsWellFolded(counter: Counter, frames: seq<string>, weight: nat, norm: string -> string)
    requires WellFolded(counter) && forall f :: f in frames ==> ';' !in norm(f)
    ensures WellFolded(FoldedAdd(counter, frames, weight, norm))
    ensures Frames(Join(NonEmpty(MapFrames(frames, norm)))) == NonEmpty(MapFrames(frames, norm))
  {
    FoldedIsClean(MapFrames(frames, norm));
  }
}
