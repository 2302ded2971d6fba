/** What the transcript fold makes of the steps, read off the steps themselves: the prompts are the first texts, the tool
    calls the calls, and every token reported is counted once. */
module PromptHistory {
  import opened Wrappers
  import opened Selections
  import opened PromptFold

  lemma RunSnoc(texts: Texts, steps: seq<Step>, step: Step)
    ensures Run(texts, steps + [step]) == Next(texts, Run(texts, steps), step)
  {
    assert (steps + [step])[..|steps|] == steps;
  }

  // ----- prompts

  /** Step `k` is the first text with its hash. */
  predicate FirstText(texts: Texts, steps: seq<Step>, k: nat) {
    && k < |steps| && steps[k].Say?
    && forall j :: 0 <= j < k && steps[j].Say? ==> texts.hash(steps[j].text) != texts.hash(steps[k].text)
  }

  predicate IsPromptOf(texts: Texts, step: Step, i: nat, p: Prompt) {
    step.Say? && p == Prompt(i, step.ts, texts.hash(step.text), texts.preview(step.text), "")
  }

  /** The prompts are the user's texts, each hash once, in the order and with the time and the preview of its first text. */
  ghost predicate PromptsFrom(texts: Texts, steps: seq<Step>, prompts: seq<Prompt>) {
    exists at: seq<nat> :: PromptsAt(texts, steps, prompts, at)
  }

  ghost predicate PromptsAt(texts: Texts, steps: seq<Step>, prompts: seq<Prompt>, at: seq<nat>) {
    && |at| == |prompts| && Increasing(at)
    && (forall i :: 0 <= i < |at| ==> FirstText(texts, steps, at[i]) && IsPromptOf(texts, steps[at[i]], i, prompts[i]))
    && (forall k: nat :: FirstText(texts, steps, k) ==> k in at)
  }

  lemma FirstTextNext(texts: Texts, steps: seq<Step>, step: Step, k: nat)
    requires k < |steps|
    ensures FirstText(texts, steps + [step], k) <==> FirstText(texts, steps, k)
  {
    var all := steps + [step];
    assert forall j :: 0 <= j <= k ==> all[j] == steps[j];
  }

  lemma LastIsFirstText(texts: Texts, steps: seq<Step>, step: Step)
    ensures FirstText(texts, steps + [step], |steps|) <==>
      step.Say? && Position(Run(texts, steps).prompts, texts.hash(step.text)).None?
  {
    var all := steps + [step];
    assert forall j :: 0 <= j < |steps| ==> all[j] == steps[j];
    if step.Say? {
      PromptsAreTexts(texts, steps, texts.hash(step.text));
    }
  }

  lemma PromptsAtSame(texts: Texts, steps: seq<Step>, step: Step, prompts: seq<Prompt>, at: seq<nat>)
    requires PromptsAt(texts, steps, prompts, at) && !FirstText(texts, steps + [step], |steps|)
    ensures PromptsAt(texts, steps + [step], prompts, at)
  {
    forall k: nat ensures FirstText(texts, steps + [step], k) <==> FirstText(texts, steps, k) {
      if k < |steps| {
        FirstTextNext(texts, steps, step, k);
      }
    }
  }

  lemma PromptsAtMore(texts: Texts, steps: seq<Step>, step: Step, prompts: seq<Prompt>, at: seq<nat>, p: Prompt)
    requires PromptsAt(texts, steps, prompts, at) && FirstText(texts, steps + [step], |steps|)
    requires IsPromptOf(texts, step, |prompts|, p)
    ensures PromptsAt(texts, steps + [step], prompts + [p], at + [|steps|])
  {
    var at' := at + [|steps|];
    forall k: nat | FirstText(texts, steps + [step], k) ensures k in at' {
      if k < |steps| {
        FirstTextNext(texts, steps, step, k);
      } else {
        assert at'[|at|] == k;
      }
    }
    forall i | 0 <= i < |at'|
      ensures FirstText(texts, steps + [step], at'[i])
      ensures IsPromptOf(texts, (steps + [step])[at'[i]], i, (prompts + [p])[i])
    {
      if i < |at| {
        FirstTextNext(texts, steps, step, at[i]);
      }
    }
  }

  lemma {:induction false} PromptsAreFirstTexts(texts: Texts, steps: seq<Step>)
    ensures PromptsFrom(texts, steps, Run(texts, steps).prompts)
  {
    if steps == [] {
      assert PromptsAt(texts, [], [], []);
    } else {
      var init, step := steps[..|steps| - 1], steps[|steps| - 1];
      assert steps == init + [step];
      PromptsAreFirstTexts(texts, init);
      var prompts := Run(texts, init).prompts;
      var at: seq<nat> :| PromptsAt(texts, init, prompts, at);
      LastIsFirstText(texts, init, step);
      if FirstText(texts, steps, |init|) {
        PromptsAtMore(texts, init, step, prompts, at, Run(texts, steps).prompts[|prompts|]);
      } else {
        PromptsAtSame(texts, init, step, prompts, at);
      }
    }
  }

  // ----- tool calls

  function IsCall(): Step -> bool {
    (s: Step) => s.Call?
  }

  predicate CallsOf(calls: seq<Step>, tools: seq<Tool>) {
    && |tools| == |calls|
    && forall k :: 0 <= k < |tools| ==> calls[k].Call? && tools[k].name == calls[k].name && tools[k].callId == calls[k].callId
  }

  /** The tool calls are the calls of the transcript, in order. */
  ghost predicate ToolsFrom(steps: seq<Step>, tools: seq<Tool>) {
    exists calls: seq<Step> :: Selects(steps, IsCall(), calls) && CallsOf(calls, tools)
  }

  lemma {:induction false} ToolsAreCalls(texts: Texts, steps: seq<Step>)
    ensures ToolsFrom(steps, Run(texts, steps).tools)
  {
    if steps == [] {
      SelectsNothing(IsCall());
      assert CallsOf([], []);
    } else {
      var init, step := steps[..|steps| - 1], steps[|steps| - 1];
      assert steps == init + [step];
      ToolsAreCalls(texts, init);
      var calls: seq<Step> :| Selects(init, IsCall(), calls) && CallsOf(calls, Run(texts, init).tools);
      SelectsSnoc(init, step, IsCall(), calls);
      CallsOfNext(texts, Run(texts, init), step, calls);
    }
  }

  lemma CallsOfNext(texts: Texts, st: State, step: Step, calls: seq<Step>)
    requires CallsOf(calls, st.tools)
    ensures CallsOf(if step.Call? then calls + [step] else calls, Next(texts, st, step).tools)
  {
    if step.Result? {
      SetStatusesKeeps(st.tools, st.calls, step.ids, step.status);
    }
  }

  /** A call is observed until a result reaches it, and changes no other. */
  lemma CallsAreObserved(texts: Texts, steps: seq<Step>, name: string, callId: Option<string>)
    ensures var before, after := Run(texts, steps).tools, Run(texts, steps + [Call(name, callId)]).tools;
      |after| == |before| + 1 && before <= after && after[|before|].status == "observed"
  {
    RunSnoc(texts, steps, Call(name, callId));
  }

  /** Texts, replies and token reports leave the tool calls alone. */
  lemma OthersLeaveTools(texts: Texts, steps: seq<Step>, step: Step)
    requires !step.Call? && !step.Result?
    ensures Run(texts, steps + [step]).tools == Run(texts, steps).tools
  {
    RunSnoc(texts, steps, step);
  }

  // ----- responses and tokens

  /** A token report changes at most the last response: if that has no tokens yet it gets these, and otherwise the report
      becomes a response of the current prompt. */
  lemma ReportReachesLast(texts: Texts, steps: seq<Step>, total: nat)
    ensures var st := Run(texts, steps);
      ReportsTo(texts, st.prompts, Latest(steps), st.responses, Run(texts, steps + [Usage(total)]).responses, total)
  {
    var st := Run(texts, steps);
    RunSnoc(texts, steps, Usage(total));
    PromptsStay(texts, steps);
    ReportedReports(texts, st.prompts, Latest(steps), st.responses, st.current, total);
  }

  predicate ReportsTo(texts: Texts, prompts: seq<Prompt>, latest: Option<string>, before: seq<Response>,
                      after: seq<Response>, total: nat)
  {
    var n := |before|;
    if total == 0 then after == before
    else if n > 0 && before[n - 1].total == 0 then
      && |after| == n && (forall k :: 0 <= k < n - 1 ==> after[k] == before[k])
      && after[n - 1] == before[n - 1].(total := total)
    else
      && |after| == n + 1 && before <= after && after[n].text == "token report" && after[n].total == total
      && Resolves(texts, prompts, latest, after[n].promptIndex)
  }

  lemma ReportedReports(texts: Texts, prompts: seq<Prompt>, latest: Option<string>, before: seq<Response>, current: nat,
                        total: nat)
    requires Resolves(texts, prompts, latest, current)
    ensures ReportsTo(texts, prompts, latest, before, Reported(before, current, total), total)
  {
  }

  /** A reply becomes the last response; texts, calls and results leave the responses alone. */
  lemma RepliesAreAdded(texts: Texts, steps: seq<Step>, step: Step)
    requires !step.Usage?
    ensures var before, after := Run(texts, steps).responses, Run(texts, steps + [step]).responses;
      if step.Reply? then
        && |after| == |before| + 1 && before <= after
        && after[|before|].text == step.text && after[|before|].total == step.total
        && Resolves(texts, Run(texts, steps).prompts, Latest(steps), after[|before|].promptIndex)
      else after == before
  {
    RunSnoc(texts, steps, step);
    PromptsStay(texts, steps);
  }

  /** The tokens of all responses. */
  function TokensOf(responses: seq<Response>): nat {
    if responses == [] then 0 else TokensOf(responses[..|responses| - 1]) + responses[|responses| - 1].total
  }

  /** The tokens that the steps report, with a reply or on their own. */
  function TokensReported(steps: seq<Step>): nat {
    if steps == [] then 0
    else
      TokensReported(steps[..|steps| - 1]) + TokensIn(steps[|steps| - 1])
  }

  lemma TokensNext(responses: seq<Response>, r: Response)
    ensures TokensOf(responses + [r]) == TokensOf(responses) + r.total
  {
    assert (responses + [r])[..|responses|] == responses;
  }

  lemma TokensMerge(responses: seq<Response>, total: nat)
    requires Merges(responses)
    ensures TokensOf(responses[|responses| - 1 := responses[|responses| - 1].(total := total)]) == TokensOf(responses) + total
  {
    var n := |responses| - 1;
    var merged := responses[n := responses[n].(total := total)];
    assert merged[..n] == responses[..n];
  }

  /** No token is lost and none is counted twice. */
  lemma {:induction false} TokensAreConserved(texts: Texts, steps: seq<Step>)
    ensures TokensOf(Run(texts, steps).responses) == TokensReported(steps)
  {
    if steps != [] {
      var init, step := steps[..|steps| - 1], steps[|steps| - 1];
      TokensAreConserved(texts, init);
      TokensStep(texts, Run(texts, init), step);
    }
  }

  function TokensIn(step: Step): nat {
    match step case Reply(_, total) => total case Usage(total) => total case _ => 0
  }

  lemma TokensStep(texts: Texts, st: State, step: Step)
    ensures TokensOf(Next(texts, st, step).responses) == TokensOf(st.responses) + TokensIn(step)
  {
    match step {
      case Reply(text, total) => TokensNext(st.responses, Response(st.current, text, total));
      case Usage(total) =>
        if Merges(st.responses) {
          TokensMerge(st.responses, total);
        }
        TokensNext(st.responses, Response(st.current, "token report", total));
      case _ =>
    }
  }
}
