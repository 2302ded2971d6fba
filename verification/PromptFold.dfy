/** The fold that reads a transcript: which prompt each event belongs to, and which tool call each result is for. */
module PromptFold {
  import opened Wrappers

  datatype Prompt = Prompt(index: nat, ts: Option<int>, hash: string, preview: string, tag: string)

  datatype Tool = Tool(promptIndex: nat, name: string, callId: Option<string>, status: string)

  datatype Response = Response(promptIndex: nat, text: string, total: nat)

  /** What the lines of a transcript come down to, in order: a user's text, a tool call, a model's text, a token
      report, and results for call ids. */
  datatype Step =
    | Say(ts: Option<int>, text: string)
    | Call(name: string, callId: Option<string>)
    | Reply(text: string, total: nat)
    | Usage(total: nat)
    | Result(ids: seq<string>, status: string)

  /** The short hash of a text and its preview. */
  datatype Texts = Texts(hash: string -> string, preview: string -> string)

  // ----- one step

  function Position(prompts: seq<Prompt>, hash: string): (r: Option<nat>)
    ensures r.Some? ==> r.value < |prompts| && prompts[r.value].hash == hash
    ensures r.None? ==> forall p :: p in prompts ==> p.hash != hash
  {
    if prompts == [] then None
    else if prompts[0].hash == hash then Some(0)
    else match Position(prompts[1..], hash) case Some(i) => Some(i + 1) case None => None
  }

  function Upserted(texts: Texts, prompts: seq<Prompt>, ts: Option<int>, text: string): seq<Prompt> {
    if Position(prompts, texts.hash(text)).Some? then prompts
    else prompts + [Prompt(|prompts|, ts, texts.hash(text), texts.preview(text), "")]
  }

  function IndexOf(texts: Texts, prompts: seq<Prompt>, text: string): nat {
    match Position(prompts, texts.hash(text)) case Some(i) => i case None => |prompts|
  }

  /** A token report goes to the last response if that has none yet. */
  predicate Merges(responses: seq<Response>) {
    responses != [] && responses[|responses| - 1].total == 0
  }

  function Reported(responses: seq<Response>, current: nat, total: nat): seq<Response> {
    if total == 0 then responses
    else if Merges(responses) then
      responses[|responses| - 1 := responses[|responses| - 1].(total := total)]
    else responses + [Response(current, "token report", total)]
  }

  function SetStatus(tools: seq<Tool>, calls: map<string, nat>, id: string, status: string): seq<Tool> {
    if id in calls && calls[id] < |tools| then tools[calls[id] := tools[calls[id]].(status := status)] else tools
  }

  function SetStatuses(tools: seq<Tool>, calls: map<string, nat>, ids: seq<string>, status: string): seq<Tool> {
    if ids == [] then tools
    else SetStatus(SetStatuses(tools, calls, ids[..|ids| - 1], status), calls, ids[|ids| - 1], status)
  }

  datatype State = State(
    prompts: seq<Prompt>, tools: seq<Tool>, responses: seq<Response>, current: nat, calls: map<string, nat>)

  function Next(texts: Texts, st: State, step: Step): State {
    match step
    case Say(ts, text) =>
      st.(prompts := Upserted(texts, st.prompts, ts, text), current := IndexOf(texts, st.prompts, text))
    case Call(name, callId) =>
      st.(tools := st.tools + [Tool(st.current, name, callId, "observed")],
          calls := if callId.Some? then st.calls[callId.value := |st.tools|] else st.calls)
    case Reply(text, total) => st.(responses := st.responses + [Response(st.current, text, total)])
    case Usage(total) => st.(responses := Reported(st.responses, st.current, total))
    case Result(ids, status) => st.(tools := SetStatuses(st.tools, st.calls, ids, status))
  }

  function Run(texts: Texts, steps: seq<Step>): State {
    if steps == [] then State([], [], [], 0, map[])
    else Next(texts, Run(texts, steps[..|steps| - 1]), steps[|steps| - 1])
  }

  // ----- the fold as it runs

  class SessionEvents {
    var prompts: seq<Prompt>
    var tools: seq<Tool>
    var responses: seq<Response>

    constructor ()
      ensures prompts == [] && tools == [] && responses == []
    {
      prompts, tools, responses := [], [], [];
    }

    method UpsertPrompt(texts: Texts, ts: Option<int>, text: string) returns (index: nat)
      modifies this`prompts
      ensures prompts == Upserted(texts, old(prompts), ts, text) && index == IndexOf(texts, old(prompts), text)
    {
      var hash := texts.hash(text);
      var i := 0;
      assert prompts[0..] == prompts;
      while i < |prompts|
        invariant i <= |prompts| && prompts == old(prompts)
        invariant Position(prompts, hash) ==
          match Position(prompts[i..], hash) case Some(k) => Some(k + i) case None => None
      {
        assert prompts[i..][1..] == prompts[i + 1..];
        if prompts[i].hash == hash {
          return i;
        }
        i := i + 1;
      }
      index := |prompts|;
      prompts := prompts + [Prompt(index, ts, hash, texts.preview(text), "")];
    }

    method ReportTokens(current: nat, total: nat)
      modifies this`responses
      ensures responses == Reported(old(responses), current, total)
    {
      if total > 0 {
        if responses != [] && responses[|responses| - 1].total == 0 {
          responses := responses[|responses| - 1 := responses[|responses| - 1].(total := total)];
        } else {
          responses := responses + [Response(current, "token report", total)];
        }
      }
    }

    method RecordResults(calls: map<string, nat>, ids: seq<string>, status: string)
      modifies this`tools
      ensures tools == SetStatuses(old(tools), calls, ids, status)
    {
      var i := 0;
      while i < |ids|
        invariant i <= |ids| && tools == SetStatuses(old(tools), calls, ids[..i], status)
      {
        var id := ids[i];
        assert ids[..i + 1][..i] == ids[..i];
        if id in calls && calls[id] < |tools| {
          tools := tools[calls[id] := tools[calls[id]].(status := status)];
        }
        i := i + 1;
      }
      assert ids[..i] == ids;
    }

    /** The loop over a transcript; the current prompt and the index of calls are its local state. */
    method Parse(texts: Texts, steps: seq<Step>)
      requires prompts == [] && tools == [] && responses == []
      modifies this
      ensures var end := Run(texts, steps); prompts == end.prompts && tools == end.tools && responses == end.responses
    {
      var current: nat, calls: map<string, nat> := 0, map[];
      var i := 0;
      while i < |steps|
        invariant i <= |steps|
        invariant State(prompts, tools, responses, current, calls) == Run(texts, steps[..i])
      {
        RunNext(texts, steps, i);
        match steps[i] {
          case Say(ts, text) =>
            current := UpsertPrompt(texts, ts, text);
          case Call(name, callId) =>
            if callId.Some? {
              calls := calls[callId.value := |tools|];
            }
            tools := tools + [Tool(current, name, callId, "observed")];
          case Reply(text, total) =>
            responses := responses + [Response(current, text, total)];
          case Usage(total) =>
            ReportTokens(current, total);
          case Result(ids, status) =>
            RecordResults(calls, ids, status);
        }
        i := i + 1;
      }
      assert steps[..i] == steps;
    }
  }

  lemma RunNext(texts: Texts, steps: seq<Step>, i: nat)
    requires i < |steps|
    ensures Run(texts, steps[..i + 1]) == Next(texts, Run(texts, steps[..i]), steps[i])
  {
    assert steps[..i + 1][..i] == steps[..i];
  }

  // ----- whose event is whose

  /** The user's last text. */
  function Latest(steps: seq<Step>): Option<string> {
    if steps == [] then None
    else
      var last := steps[|steps| - 1];
      if last.Say? then Some(last.text) else Latest(steps[..|steps| - 1])
  }

  /** For each tool call of a transcript, the user's last text before it. */
  function ToolOwners(steps: seq<Step>): seq<Option<string>> {
    if steps == [] then []
    else
      var init := steps[..|steps| - 1];
      ToolOwners(init) + if steps[|steps| - 1].Call? then [Latest(init)] else []
  }

  /** The steps that start a response of their own: texts, and token reports with none to go to. */
  predicate Responds(texts: Texts, before: seq<Step>, step: Step) {
    step.Reply? || (step.Usage? && step.total > 0 && !Merges(Run(texts, before).responses))
  }

  function ResponseOwners(texts: Texts, steps: seq<Step>): seq<Option<string>> {
    if steps == [] then []
    else
      var init := steps[..|steps| - 1];
      ResponseOwners(texts, init) + if Responds(texts, init, steps[|steps| - 1]) then [Latest(init)] else []
  }

  /** `index` leads to the prompt of the owner's text; without a text so far it is 0. */
  predicate Resolves(texts: Texts, prompts: seq<Prompt>, owner: Option<string>, index: nat) {
    if owner.Some? then index < |prompts| && prompts[index].hash == texts.hash(owner.value) else index == 0
  }

  predicate Indexed(prompts: seq<Prompt>) {
    forall i :: 0 <= i < |prompts| ==> prompts[i].index == i
  }

  predicate PromptsOk(prompts: seq<Prompt>) {
    && Indexed(prompts)
    && (forall i, j :: 0 <= i < j < |prompts| ==> prompts[i].hash != prompts[j].hash)
  }

  predicate ToolsOwned(texts: Texts, prompts: seq<Prompt>, tools: seq<Tool>, owners: seq<Option<string>>) {
    |tools| == |owners| && forall k :: 0 <= k < |tools| ==> Resolves(texts, prompts, owners[k], tools[k].promptIndex)
  }

  predicate ResponsesOwned(texts: Texts, prompts: seq<Prompt>, responses: seq<Response>, owners: seq<Option<string>>) {
    && |responses| == |owners|
    && forall k :: 0 <= k < |responses| ==> Resolves(texts, prompts, owners[k], responses[k].promptIndex)
  }

  lemma UpsertedIs(texts: Texts, prompts: seq<Prompt>, ts: Option<int>, text: string)
    requires PromptsOk(prompts)
    ensures var r := Upserted(texts, prompts, ts, text);
      PromptsOk(r) && prompts <= r && Resolves(texts, r, Some(text), IndexOf(texts, prompts, text))
  {
  }

  lemma SetStatusesKeeps(tools: seq<Tool>, calls: map<string, nat>, ids: seq<string>, status: string)
    ensures var r := SetStatuses(tools, calls, ids, status);
      && |r| == |tools|
      && forall k :: 0 <= k < |r| ==> r[k] == tools[k].(status := r[k].status)
  {
  }

  lemma {:induction false} PromptsStay(texts: Texts, steps: seq<Step>)
    ensures var st := Run(texts, steps);
      PromptsOk(st.prompts) && Resolves(texts, st.prompts, Latest(steps), st.current)
    ensures steps != [] ==> Run(texts, steps[..|steps| - 1]).prompts <= Run(texts, steps).prompts
  {
    if steps != [] {
      var init, step := steps[..|steps| - 1], steps[|steps| - 1];
      PromptsStay(texts, init);
      if step.Say? {
        UpsertedIs(texts, Run(texts, init).prompts, step.ts, step.text);
      }
    }
  }

  lemma {:induction false} ToolsBelong(texts: Texts, steps: seq<Step>)
    ensures ToolsOwned(texts, Run(texts, steps).prompts, Run(texts, steps).tools, ToolOwners(steps))
  {
    if steps != [] {
      var init, step := steps[..|steps| - 1], steps[|steps| - 1];
      var st := Run(texts, init);
      PromptsStay(texts, init);
      PromptsStay(texts, steps);
      ToolsBelong(texts, init);
      if step.Result? {
        SetStatusesKeeps(st.tools, st.calls, step.ids, step.status);
      }
    }
  }

  lemma ReportedOwned(texts: Texts, prompts: seq<Prompt>, responses: seq<Response>, owners: seq<Option<string>>,
                      latest: Option<string>, current: nat, total: nat)
    requires ResponsesOwned(texts, prompts, responses, owners) && Resolves(texts, prompts, latest, current)
    ensures ResponsesOwned(texts, prompts, Reported(responses, current, total),
                           owners + if total > 0 && !Merges(responses) then [latest] else [])
  {
  }

  lemma OwnedWithMorePrompts(texts: Texts, prompts: seq<Prompt>, prompts': seq<Prompt>, responses: seq<Response>,
                             owners: seq<Option<string>>)
    requires ResponsesOwned(texts, prompts, responses, owners) && prompts <= prompts'
    ensures ResponsesOwned(texts, prompts', responses, owners + [])
  {
  }

  lemma {:induction false} ResponsesBelong(texts: Texts, steps: seq<Step>)
    ensures ResponsesOwned(texts, Run(texts, steps).prompts, Run(texts, steps).responses, ResponseOwners(texts, steps))
  {
    if steps != [] {
      var init, step := steps[..|steps| - 1], steps[|steps| - 1];
      var st, owners := Run(texts, init), ResponseOwners(texts, init);
      PromptsStay(texts, init);
      ResponsesBelong(texts, init);
      if step.Usage? {
        ReportedOwned(texts, st.prompts, st.responses, owners, Latest(init), st.current, step.total);
      } else if !step.Reply? {
        PromptsStay(texts, steps);
        OwnedWithMorePrompts(texts, st.prompts, Run(texts, steps).prompts, st.responses, owners);
      }
    }
  }

  /** After any transcript: prompt i has index i, no two prompts share a hash, and each tool call and each response
      belongs to the prompt whose hash is that of the user's last text before it; before any text, to the first. */
  lemma EventsBelong(texts: Texts, steps: seq<Step>)
    ensures var st := Run(texts, steps);
      && PromptsOk(st.prompts)
      && ToolsOwned(texts, st.prompts, st.tools, ToolOwners(steps))
      && ResponsesOwned(texts, st.prompts, st.responses, ResponseOwners(texts, steps))
  {
    PromptsStay(texts, steps);
    ToolsBelong(texts, steps);
    ResponsesBelong(texts, steps);
  }

  predicate EventsInRange(prompts: seq<Prompt>, tools: seq<Tool>, responses: seq<Response>) {
    var n := if prompts == [] then 1 else |prompts|;
    (forall t :: t in tools ==> t.promptIndex < n) && forall r :: r in responses ==> r.promptIndex < n
  }

  /** No event refers to a prompt there is not, unless there is none at all, and then it refers to the first. */
  lemma IndicesInRange(texts: Texts, steps: seq<Step>)
    ensures var st := Run(texts, steps); EventsInRange(st.prompts, st.tools, st.responses)
  {
    EventsBelong(texts, steps);
  }

  /** The prompts are those of the user's texts, and no others. */
  lemma {:induction false} PromptsAreTexts(texts: Texts, steps: seq<Step>, hash: string)
    ensures (exists p :: p in Run(texts, steps).prompts && p.hash == hash)
      <==> (exists s :: s in steps && s.Say? && texts.hash(s.text) == hash)
  {
    if steps != [] {
      var init, step := steps[..|steps| - 1], steps[|steps| - 1];
      PromptsAreTexts(texts, init, hash);
      assert steps == init + [step];
      var before, after := Run(texts, init).prompts, Run(texts, steps).prompts;
      if step.Say? {
        assert after == before || after == before + [after[|before|]];
        assert exists p :: p in after && p.hash == texts.hash(step.text);
      }
    }
  }

  // ----- which call a result is for

  /** The index of calls holds, for each call id, the last tool call with that id. */
  predicate CallsOk(tools: seq<Tool>, calls: map<string, nat>) {
    && (forall id :: id in calls ==> LastWith(tools, id, calls[id]))
    && (forall k :: 0 <= k < |tools| && tools[k].callId.Some? ==> tools[k].callId.value in calls)
  }

  predicate LastWith(tools: seq<Tool>, id: string, k: nat) {
    k < |tools| && tools[k].callId == Some(id) && forall j :: k < j < |tools| ==> tools[j].callId != Some(id)
  }

  lemma {:induction false} CallsAreLast(texts: Texts, steps: seq<Step>)
    ensures CallsOk(Run(texts, steps).tools, Run(texts, steps).calls)
  {
    if steps != [] {
      var init, step := steps[..|steps| - 1], steps[|steps| - 1];
      var st := Run(texts, init);
      CallsAreLast(texts, init);
      if step.Result? {
        SetStatusesKeeps(st.tools, st.calls, step.ids, step.status);
      } else if step.Call? {
        var st' := Run(texts, steps);
        forall id | id in st'.calls ensures LastWith(st'.tools, id, st'.calls[id]) {
          if step.callId != Some(id) {
            assert LastWith(st.tools, id, st.calls[id]);
          }
        }
      }
    }
  }

  /** A result changes the status of exactly the last tool calls so far with its ids. */
  lemma ResultsReachTheirCalls(texts: Texts, steps: seq<Step>, ids: seq<string>, status: string, k: nat)
    requires k < |Run(texts, steps).tools|
    ensures var before, after := Run(texts, steps).tools, Run(texts, steps + [Result(ids, status)]).tools;
      && |after| == |before|
      && after[k] == if exists id :: id in ids && LastWith(before, id, k) then before[k].(status := status) else before[k]
  {
    var st := Run(texts, steps);
    assert (steps + [Result(ids, status)])[..|steps|] == steps;
    CallsAreLast(texts, steps);
    StatusesAt(st.tools, st.calls, ids, status, k);
  }

  lemma {:induction false} StatusesAt(tools: seq<Tool>, calls: map<string, nat>, ids: seq<string>, status: string, k: nat)
    requires CallsOk(tools, calls) && k < |tools|
    ensures var r := SetStatuses(tools, calls, ids, status);
      && |r| == |tools|
      && r[k] == if exists id :: id in ids && LastWith(tools, id, k) then tools[k].(status := status) else tools[k]
  {
    SetStatusesKeeps(tools, calls, ids, status);
    if ids != [] {
      var init, last := ids[..|ids| - 1], ids[|ids| - 1];
      SetStatusesKeeps(tools, calls, init, status);
      StatusesAt(tools, calls, init, status, k);
      assert ids == init + [last];
      if last in calls {
        assert LastWith(tools, last, calls[last]);
      }
      if LastWith(tools, last, k) {
        assert calls[last] == k;
      }
    }
  }
}
