/** What the folded counter holds after any entries: for each stack, the weight of the entries that fold to it. */
module FoldedCounter {
  import opened Selections
  import opened Stacks

  datatype Folded = Folded(frames: seq<string>, weight: nat)

  /** The counter after these entries, from an empty one. */
  function FoldAll(entries: seq<Folded>, norm: string -> string): Counter {
    if entries == [] then map[]
    else
      var last := entries[|entries| - 1];
      FoldedAdd(FoldAll(entries[..|entries| - 1], norm), last.frames, last.weight, norm)
  }

  function IsFrame(): string -> bool {
    (f: string) => f != ""
  }

  lemma NonEmptySnoc(pieces: seq<string>, p: string)
    ensures NonEmpty(pieces + [p]) == NonEmpty(pieces) + if p == "" then [] else [p]
  {
    if pieces == [] {
      assert [] + [p] == [p] && [p][1..] == [];
    } else {
      NonEmptySnoc(pieces[1..], p);
      assert (pieces + [p])[1..] == pieces[1..] + [p];
    }
  }

  /** The frames of a stack are its pieces without the empty ones, in order. */
  lemma {:induction false} NonEmptySelects(pieces: seq<string>)
    ensures Selects(pieces, IsFrame(), NonEmpty(pieces))
  {
    if pieces == [] {
      SelectsNothing(IsFrame());
    } else {
      var init, last := pieces[..|pieces| - 1], pieces[|pieces| - 1];
      assert pieces == init + [last];
      NonEmptySelects(init);
      NonEmptySnoc(init, last);
      SelectsSnoc(init, last, IsFrame(), NonEmpty(init));
      assert NonEmpty(init) + [] == NonEmpty(init);
    }
  }

  /** The entry folds to this stack: its frames, normalised and without the empty ones, in order, joined. */
  ghost predicate FoldsTo(e: Folded, norm: string -> string, stack: string) {
    exists pieces: seq<string>, frames: seq<string> ::
      && |pieces| == |e.frames| && (forall i :: 0 <= i < |pieces| ==> pieces[i] == norm(e.frames[i]))
      && Selects(pieces, IsFrame(), frames) && stack == Join(frames)
  }

  lemma FoldsToIff(e: Folded, norm: string -> string, stack: string)
    ensures FoldsTo(e, norm, stack) <==> stack == Join(NonEmpty(MapFrames(e.frames, norm)))
  {
    var mapped := MapFrames(e.frames, norm);
    NonEmptySelects(mapped);
    if FoldsTo(e, norm, stack) {
      var pieces: seq<string>, frames: seq<string> :|
        && |pieces| == |e.frames| && (forall i :: 0 <= i < |pieces| ==> pieces[i] == norm(e.frames[i]))
        && Selects(pieces, IsFrame(), frames) && stack == Join(frames);
      assert pieces == mapped;
      SelectsOne(pieces, IsFrame(), frames, NonEmpty(mapped));
    }
  }

  /** The weight of the entries that fold to a stack; a weight of 0 counts as 1. */
  ghost function WeightOf(entries: seq<Folded>, norm: string -> string, stack: string): nat {
    if entries == [] then 0
    else
      var last := entries[|entries| - 1];
      WeightOf(entries[..|entries| - 1], norm, stack)
      + if FoldsTo(last, norm, stack) then (if last.weight == 0 then 1 else last.weight) else 0
  }

  /** The counter holds for each stack but the empty one exactly the weight of its entries, and nothing for a stack
      without entries. */
  lemma {:induction false} CounterIsWeight(entries: seq<Folded>, norm: string -> string, stack: string)
    ensures var counter := FoldAll(entries, norm);
      && (stack in counter <==> stack != "" && WeightOf(entries, norm, stack) > 0)
      && (stack in counter ==> counter[stack] == WeightOf(entries, norm, stack))
  {
    if entries != [] {
      var init, last := entries[..|entries| - 1], entries[|entries| - 1];
      CounterIsWeight(init, norm, stack);
      FoldsToIff(last, norm, stack);
    }
  }
}
