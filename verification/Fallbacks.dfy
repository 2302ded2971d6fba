/** What the fallbacks put into a session record, read off the summary. */
module Fallbacks {
  import opened Wrappers
  import opened Selections
  import opened PromptFold
  import opened PromptFilter

  /** How many uses the first `i` counts stand for. */
  function UsesBefore(counts: seq<ToolCount>, i: nat): nat
    requires i <= |counts|
  {
    if i == 0 then 0 else UsesBefore(counts, i - 1) + counts[i - 1].count
  }

  predicate IsUseOf(counts: seq<ToolCount>, i: nat, k: nat)
    requires i < |counts|
  {
    UsesBefore(counts, i) <= k < UsesBefore(counts, i + 1)
  }

  /** One observed tool call of the first request for each use, in the order of the counts. */
  ghost predicate UsesListed(counts: seq<ToolCount>, tools: seq<Tool>) {
    && |tools| == UsesBefore(counts, |counts|)
    && forall i, k :: 0 <= i < |counts| && 0 <= k < |tools| && IsUseOf(counts, i, k) ==>
         tools[k] == Tool(0, counts[i].name, None, "observed")
  }

  function HasTokens(): ModelUsage -> bool {
    (m: ModelUsage) => m.total > 0
  }

  predicate CallsFor(used: seq<ModelUsage>, calls: seq<Response>) {
    && |calls| == |used|
    && forall k :: 0 <= k < |calls| ==> calls[k].promptIndex == 0 && calls[k].total as int == used[k].total
  }

  /** One call of the first request for each model that used tokens, in order, with its tokens. */
  ghost predicate ModelsListed(models: seq<ModelUsage>, calls: seq<Response>) {
    exists used: seq<ModelUsage> :: Selects(models, HasTokens(), used) && CallsFor(used, calls)
  }

  lemma {:induction false} UsesPrefix(counts: seq<ToolCount>, last: ToolCount, i: nat)
    requires i <= |counts|
    ensures UsesBefore(counts + [last], i) == UsesBefore(counts, i)
  {
    if i > 0 {
      UsesPrefix(counts, last, i - 1);
    }
  }

  lemma {:induction false} UsesGrow(counts: seq<ToolCount>, i: nat)
    requires i <= |counts|
    ensures UsesBefore(counts, i) <= UsesBefore(counts, |counts|)
    decreases |counts| - i
  {
    if i < |counts| {
      UsesGrow(counts, i + 1);
    }
  }

  lemma {:induction false} FallbackToolsList(counts: seq<ToolCount>)
    ensures UsesListed(counts, FallbackTools(counts))
  {
    if counts != [] {
      var init, last := counts[..|counts| - 1], counts[|counts| - 1];
      assert counts == init + [last];
      FallbackToolsList(init);
      UsesPrefix(init, last, |init|);
      var tools, more := FallbackTools(init), Copies(last.name, last.count);
      forall i, k | 0 <= i < |counts| && 0 <= k < |tools + more| && IsUseOf(counts, i, k)
        ensures (tools + more)[k] == Tool(0, counts[i].name, None, "observed")
      {
        UsesPrefix(init, last, i);
        if i < |init| {
          UsesPrefix(init, last, i + 1);
          UsesGrow(init, i + 1);
          assert IsUseOf(init, i, k);
        } else {
          assert (tools + more)[k] == more[k - |tools|];
          assert more[k - |tools|] in more;
        }
      }
    }
  }

  lemma {:induction false} FallbackCallsList(models: seq<ModelUsage>)
    ensures ModelsListed(models, FallbackCalls(models))
  {
    if models == [] {
      SelectsNothing(HasTokens());
      assert CallsFor([], []);
    } else {
      var init, last := models[..|models| - 1], models[|models| - 1];
      assert models == init + [last];
      FallbackCallsList(init);
      var used: seq<ModelUsage> :| Selects(init, HasTokens(), used) && CallsFor(used, FallbackCalls(init));
      SelectsSnoc(init, last, HasTokens(), used);
      CallsForNext(init, last, used);
    }
  }

  lemma CallsForNext(models: seq<ModelUsage>, last: ModelUsage, used: seq<ModelUsage>)
    requires CallsFor(used, FallbackCalls(models))
    ensures CallsFor(if last.total > 0 then used + [last] else used, FallbackCalls(models + [last]))
  {
    assert (models + [last])[..|models|] == models;
  }

  /** What is there stays; what is missing is filled in from the summary: the preview as the first prompt, the counted
      tool uses, and the tokens by model. */
  lemma FallbacksFill(texts: Texts, r: Record, summary: Summary)
    ensures var f := WithFallbacks(texts, r, summary);
      && f.start == r.start
      && (r.requests != [] || summary.preview.None? ==> f.requests == r.requests)
      && (r.requests == [] && summary.preview.Some? ==>
            && |f.requests| == 1 && f.requests[0].index == 0 && f.requests[0].ts == r.start
            && f.requests[0].hash == texts.hash(summary.preview.value)
            && f.requests[0].preview == texts.preview(summary.preview.value))
      && (if r.tools != [] then f.tools == r.tools else UsesListed(summary.tools, f.tools))
      && (if r.calls != [] then f.calls == r.calls else ModelsListed(summary.models, f.calls))
  {
    FallbackToolsList(summary.tools);
    FallbackCallsList(summary.models);
  }
}
