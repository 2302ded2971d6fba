/** The session records of the profiler: fallbacks for empty sessions, and the filter by prompt tag. */
module PromptFilter {
  import opened PromptFold
  import opened Wrappers

  datatype Record = Record(start: Option<int>, requests: seq<Prompt>, tools: seq<Tool>, calls: seq<Response>)

  /** What is known of a session besides its events: a preview of its prompt, counts of tools, tokens by model. */
  datatype Summary = Summary(preview: Option<string>, tools: seq<ToolCount>, models: seq<ModelUsage>)

  datatype ToolCount = ToolCount(name: string, count: nat)

  datatype ModelUsage = ModelUsage(model: string, total: int)

  /** The request at an index, or the last one. */
  function RequestByIndex(requests: seq<Prompt>, index: nat): Option<Prompt> {
    if index < |requests| then Some(requests[index])
    else if requests != [] then Some(requests[|requests| - 1])
    else None
  }

  // ----- fallbacks

  function FallbackTool(name: string): Tool {
    Tool(0, name, None, "observed")
  }

  function Copies(name: string, n: nat): (r: seq<Tool>)
    ensures |r| == n && forall t :: t in r ==> t == FallbackTool(name)
  {
    seq(n, _ => FallbackTool(name))
  }

  /** One tool call for each counted use. */
  function FallbackTools(counts: seq<ToolCount>): (r: seq<Tool>)
    ensures forall t :: t in r ==> t.promptIndex == 0
  {
    if counts == [] then []
    else FallbackTools(counts[..|counts| - 1]) + Copies(counts[|counts| - 1].name, counts[|counts| - 1].count)
  }

  /** One call for each model that used tokens. */
  function FallbackCalls(models: seq<ModelUsage>): (r: seq<Response>)
    ensures forall c :: c in r ==> c.promptIndex == 0
  {
    if models == [] then []
    else
      var last := models[|models| - 1];
      FallbackCalls(models[..|models| - 1]) +
      if last.total <= 0 then [] else [Response(0, "session token summary", last.total)]
  }

  function WithFallbacks(texts: Texts, r: Record, summary: Summary): Record {
    Record(
      r.start,
      if r.requests == [] && summary.preview.Some? then
        [Prompt(0, r.start, texts.hash(summary.preview.value), texts.preview(summary.preview.value), "")]
      else r.requests,
      if r.tools == [] then FallbackTools(summary.tools) else r.tools,
      if r.calls == [] then FallbackCalls(summary.models) else r.calls)
  }

  function Bootstrap(start: Option<int>): Prompt {
    Prompt(0, start, "bootstrap", "session bootstrap", "")
  }

  function WithPrompt(r: Record): Record {
    if r.requests == [] then r.(requests := [Bootstrap(r.start)]) else r
  }

  // ----- the filter

  /** The ordinals of the requests with a tag, in order. */
  function Selected(requests: seq<Prompt>, tag: string): (r: seq<nat>)
    ensures forall k :: 0 <= k < |r| ==> r[k] < |requests| && requests[r[k]].tag == tag
    ensures forall j, k :: 0 <= j < k < |r| ==> r[j] < r[k]
    ensures forall o :: 0 <= o < |requests| && requests[o].tag == tag ==> o in r
  {
    if requests == [] then []
    else
      var n := |requests| - 1;
      Selected(requests[..n], tag) + if requests[n].tag == tag then [n] else []
  }

  /** From an old ordinal to the new one. */
  function RowMap(selected: seq<nat>): map<nat, nat> {
    if selected == [] then map[]
    else RowMap(selected[..|selected| - 1])[selected[|selected| - 1] := |selected| - 1]
  }

  function RemapTools(tools: seq<Tool>, rows: map<nat, nat>): seq<Tool> {
    if tools == [] then []
    else
      (if tools[0].promptIndex in rows then [tools[0].(promptIndex := rows[tools[0].promptIndex])] else []) +
      RemapTools(tools[1..], rows)
  }

  function RemapCalls(calls: seq<Response>, rows: map<nat, nat>): seq<Response> {
    if calls == [] then []
    else
      (if calls[0].promptIndex in rows then [calls[0].(promptIndex := rows[calls[0].promptIndex])] else []) +
      RemapCalls(calls[1..], rows)
  }

  function Picked(requests: seq<Prompt>, selected: seq<nat>): seq<Prompt>
    requires forall k :: 0 <= k < |selected| ==> selected[k] < |requests|
  {
    seq(|selected|, k requires 0 <= k < |selected| => requests[selected[k]])
  }

  function FilterByTag(r: Record, tag: string): Record {
    var selected := Selected(r.requests, tag);
    if selected == [] then r.(requests := [], tools := [], calls := [])
    else
      var rows := RowMap(selected);
      r.(requests := Picked(r.requests, selected), tools := RemapTools(r.tools, rows), calls := RemapCalls(r.calls, rows))
  }

  // ----- the record as it is changed

  class SessionRecord {
    const start: Option<int>
    var requests: seq<Prompt>
    var tools: seq<Tool>
    var calls: seq<Response>

    function Contents(): Record
      reads this
    {
      Record(start, requests, tools, calls)
    }

    constructor (r: Record)
      ensures Contents() == r
    {
      start, requests, tools, calls := r.start, r.requests, r.tools, r.calls;
    }

    method PushFallbackTools(counts: seq<ToolCount>)
      requires tools == []
      modifies this`tools
      ensures tools == FallbackTools(counts)
    {
      var i := 0;
      while i < |counts|
        invariant i <= |counts| && tools == FallbackTools(counts[..i])
      {
        var name, count := counts[i].name, counts[i].count;
        ghost var before := tools;
        var k := 0;
        while k < count
          invariant k <= count && tools == before + Copies(name, k)
        {
          tools := tools + [FallbackTool(name)];
          k := k + 1;
        }
        assert counts[..i + 1][..i] == counts[..i];
        i := i + 1;
      }
      assert counts[..i] == counts;
    }

    method PushFallbackCalls(models: seq<ModelUsage>)
      requires calls == []
      modifies this`calls
      ensures calls == FallbackCalls(models)
    {
      var i := 0;
      while i < |models|
        invariant i <= |models| && calls == FallbackCalls(models[..i])
      {
        assert models[..i + 1][..i] == models[..i];
        if models[i].total > 0 {
          calls := calls + [Response(0, "session token summary", models[i].total)];
        }
        i := i + 1;
      }
      assert models[..i] == models;
    }

    method ApplyFallbacks(texts: Texts, summary: Summary)
      modifies this
      ensures Contents() == WithFallbacks(texts, old(Contents()), summary)
    {
      if requests == [] && summary.preview.Some? {
        var prompt := summary.preview.value;
        requests := requests + [Prompt(0, start, texts.hash(prompt), texts.preview(prompt), "")];
      }
      if tools == [] {
        PushFallbackTools(summary.tools);
      }
      if calls == [] {
        PushFallbackCalls(summary.models);
      }
    }

    method EnsurePrompt()
      modifies this
      ensures Contents() == WithPrompt(old(Contents()))
    {
      if requests == [] {
        requests := requests + [Bootstrap(start)];
      }
    }

    /** Keeps the requests with the tag and the events that belong to them; each event, changed in nothing but its
        index, still leads to its own request. */
    method FilterByPromptTag(tag: string)
      modifies this
      ensures Contents() == FilterByTag(old(Contents()), tag)
      ensures requests == Tagged(old(requests), tag)
      ensures ToolsKept(KeptTools(old(tools), old(requests), tag), tools, old(requests), requests)
      ensures CallsKept(KeptCalls(old(calls), old(requests), tag), calls, old(requests), requests)
    {
      FilterKeepsRequests(Contents(), tag);
      FilterKeepsEvents(Contents(), tag);
      PickedIsTagged(requests, tag);
      var selected, kept := SelectByTag(requests, tag);
      if selected == [] {
        requests, tools, calls := [], [], [];
        return;
      }
      var rows := NewOrdinals(selected);
      tools := RemapToolEvents(tools, rows);
      calls := RemapCallEvents(calls, rows);
      requests := kept;
    }
  }

  /** The requests with the tag and their ordinals. */
  method SelectByTag(requests: seq<Prompt>, tag: string) returns (selected: seq<nat>, kept: seq<Prompt>)
    ensures selected == Selected(requests, tag) && kept == Tagged(requests, tag)
  {
    selected, kept := [], [];
    var i := 0;
    while i < |requests|
      invariant i <= |requests|
      invariant selected == Selected(requests[..i], tag) && kept == Tagged(requests[..i], tag)
    {
      assert requests[..i + 1][..i] == requests[..i];
      if requests[i].tag == tag {
        selected := selected + [i];
        kept := kept + [requests[i]];
      }
      i := i + 1;
    }
    assert requests[..i] == requests;
  }

  method NewOrdinals(selected: seq<nat>) returns (rows: map<nat, nat>)
    ensures rows == RowMap(selected)
  {
    rows := map[];
    var k := 0;
    while k < |selected|
      invariant k <= |selected| && rows == RowMap(selected[..k])
    {
      assert selected[..k + 1][..k] == selected[..k];
      rows := rows[selected[k] := k];
      k := k + 1;
    }
    assert selected[..k] == selected;
  }

  method RemapToolEvents(tools: seq<Tool>, rows: map<nat, nat>) returns (remapped: seq<Tool>)
    ensures remapped == RemapTools(tools, rows)
  {
    remapped := [];
    var i := 0;
    assert tools[0..] == tools;
    while i < |tools|
      invariant i <= |tools| && remapped + RemapTools(tools[i..], rows) == RemapTools(tools, rows)
    {
      var event := tools[i];
      assert tools[i..][1..] == tools[i + 1..];
      if event.promptIndex in rows {
        remapped := remapped + [event.(promptIndex := rows[event.promptIndex])];
      }
      i := i + 1;
    }
  }

  method RemapCallEvents(calls: seq<Response>, rows: map<nat, nat>) returns (remapped: seq<Response>)
    ensures remapped == RemapCalls(calls, rows)
  {
    remapped := [];
    var i := 0;
    assert calls[0..] == calls;
    while i < |calls|
      invariant i <= |calls| && remapped + RemapCalls(calls[i..], rows) == RemapCalls(calls, rows)
    {
      var call := calls[i];
      assert calls[i..][1..] == calls[i + 1..];
      if call.promptIndex in rows {
        remapped := remapped + [call.(promptIndex := rows[call.promptIndex])];
      }
      i := i + 1;
    }
  }

  // ----- events stay in range

  predicate InRange(r: Record) {
    && (forall t :: t in r.tools ==> t.promptIndex < |r.requests|)
    && forall c :: c in r.calls ==> c.promptIndex < |r.requests|
  }

  function RecordOf(start: Option<int>, st: State): Record {
    Record(start, st.prompts, st.tools, st.responses)
  }

  /** Whatever the transcript, once a prompt is ensured every event refers to a request there is: the fallback to the
      last request is never taken. */
  lemma EnsuredIsInRange(texts: Texts, steps: seq<Step>, start: Option<int>, summary: Summary)
    ensures var r := WithPrompt(WithFallbacks(texts, RecordOf(start, Run(texts, steps)), summary));
      && r.requests != [] && Indexed(r.requests) && InRange(r)
      && (forall t :: t in r.tools ==> RequestByIndex(r.requests, t.promptIndex) == Some(r.requests[t.promptIndex]))
      && (forall c :: c in r.calls ==> RequestByIndex(r.requests, c.promptIndex) == Some(r.requests[c.promptIndex]))
  {
    IndicesInRange(texts, steps);
    PromptsStay(texts, steps);
  }

  // ----- what the filter keeps

  lemma {:induction false} RowMapAt(selected: seq<nat>, o: nat)
    requires forall j, k :: 0 <= j < k < |selected| ==> selected[j] < selected[k]
    ensures o in RowMap(selected) <==> o in selected
    ensures o in selected ==> RowMap(selected)[o] < |selected| && selected[RowMap(selected)[o]] == o
  {
    if selected != [] {
      var init := selected[..|selected| - 1];
      assert selected == init + [selected[|selected| - 1]];
      RowMapAt(init, o);
    }
  }

  /** The events of requests with the tag, in order, as they were. */
  function KeptTools(tools: seq<Tool>, requests: seq<Prompt>, tag: string): seq<Tool> {
    if tools == [] then []
    else (if Has(requests, tools[0].promptIndex, tag) then [tools[0]] else []) + KeptTools(tools[1..], requests, tag)
  }

  function KeptCalls(calls: seq<Response>, requests: seq<Prompt>, tag: string): seq<Response> {
    if calls == [] then []
    else (if Has(requests, calls[0].promptIndex, tag) then [calls[0]] else []) + KeptCalls(calls[1..], requests, tag)
  }

  predicate Has(requests: seq<Prompt>, index: nat, tag: string) {
    index < |requests| && requests[index].tag == tag
  }

  /** The new index leads to the request the old one led to. */
  predicate Same(requests: seq<Prompt>, index: nat, requests': seq<Prompt>, index': nat) {
    index < |requests| && index' < |requests'| && requests'[index'] == requests[index]
  }

  /** `rows` holds the new index of each request with the tag, and nothing else. */
  ghost predicate RowsOk(rows: map<nat, nat>, requests: seq<Prompt>, tag: string, requests': seq<Prompt>) {
    forall o: nat :: (o in rows <==> Has(requests, o, tag)) && (o in rows ==> Same(requests, o, requests', rows[o]))
  }

  lemma RowMapOk(requests: seq<Prompt>, tag: string)
    ensures var selected := Selected(requests, tag); RowsOk(RowMap(selected), requests, tag, Picked(requests, selected))
  {
    var selected := Selected(requests, tag);
    forall o: nat
      ensures o in RowMap(selected) <==> Has(requests, o, tag)
      ensures o in RowMap(selected) ==> Same(requests, o, Picked(requests, selected), RowMap(selected)[o])
    {
      RowMapAt(selected, o);
    }
  }

  /** Nothing changed but the index, and it leads to the same request. */
  predicate ToolKept(tool: Tool, tool': Tool, requests: seq<Prompt>, requests': seq<Prompt>) {
    && tool' == tool.(promptIndex := tool'.promptIndex)
    && Same(requests, tool.promptIndex, requests', tool'.promptIndex)
  }

  predicate CallKept(call: Response, call': Response, requests: seq<Prompt>, requests': seq<Prompt>) {
    && call' == call.(promptIndex := call'.promptIndex)
    && Same(requests, call.promptIndex, requests', call'.promptIndex)
  }

  predicate ToolsKept(tools: seq<Tool>, tools': seq<Tool>, requests: seq<Prompt>, requests': seq<Prompt>) {
    |tools| == |tools'| && forall k :: 0 <= k < |tools| ==> ToolKept(tools[k], tools'[k], requests, requests')
  }

  predicate CallsKept(calls: seq<Response>, calls': seq<Response>, requests: seq<Prompt>, requests': seq<Prompt>) {
    |calls| == |calls'| && forall k :: 0 <= k < |calls| ==> CallKept(calls[k], calls'[k], requests, requests')
  }

  lemma {:induction false} RemapToolsKeeps(
    tools: seq<Tool>, rows: map<nat, nat>, requests: seq<Prompt>, tag: string, requests': seq<Prompt>)
    requires RowsOk(rows, requests, tag, requests')
    ensures ToolsKept(KeptTools(tools, requests, tag), RemapTools(tools, rows), requests, requests')
  {
    if tools != [] {
      RemapToolsKeeps(tools[1..], rows, requests, tag, requests');
    }
  }

  lemma {:induction false} RemapCallsKeeps(
    calls: seq<Response>, rows: map<nat, nat>, requests: seq<Prompt>, tag: string, requests': seq<Prompt>)
    requires RowsOk(rows, requests, tag, requests')
    ensures CallsKept(KeptCalls(calls, requests, tag), RemapCalls(calls, rows), requests, requests')
  {
    if calls != [] {
      RemapCallsKeeps(calls[1..], rows, requests, tag, requests');
    }
  }

  lemma NoneSelected(requests: seq<Prompt>, tag: string, index: nat)
    requires Selected(requests, tag) == []
    ensures !Has(requests, index, tag)
  {
  }

  lemma {:induction false} NoToolsKept(tools: seq<Tool>, requests: seq<Prompt>, tag: string)
    requires Selected(requests, tag) == []
    ensures KeptTools(tools, requests, tag) == []
  {
    if tools != [] {
      NoneSelected(requests, tag, tools[0].promptIndex);
      NoToolsKept(tools[1..], requests, tag);
    }
  }

  lemma {:induction false} NoCallsKept(calls: seq<Response>, requests: seq<Prompt>, tag: string)
    requires Selected(requests, tag) == []
    ensures KeptCalls(calls, requests, tag) == []
  {
    if calls != [] {
      NoneSelected(requests, tag, calls[0].promptIndex);
      NoCallsKept(calls[1..], requests, tag);
    }
  }

  /** The filter keeps exactly the events of requests with the tag, in order, changed in nothing but their index, and
      each still leads to its own request. */
  lemma FilterKeepsEvents(r: Record, tag: string)
    ensures var after := FilterByTag(r, tag);
      && ToolsKept(KeptTools(r.tools, r.requests, tag), after.tools, r.requests, after.requests)
      && CallsKept(KeptCalls(r.calls, r.requests, tag), after.calls, r.requests, after.requests)
  {
    var selected := Selected(r.requests, tag);
    if selected == [] {
      NoToolsKept(r.tools, r.requests, tag);
      NoCallsKept(r.calls, r.requests, tag);
    } else {
      RowMapOk(r.requests, tag);
      RemapToolsKeeps(r.tools, RowMap(selected), r.requests, tag, Picked(r.requests, selected));
      RemapCallsKeeps(r.calls, RowMap(selected), r.requests, tag, Picked(r.requests, selected));
    }
  }

  /** The requests with the tag. */
  function Tagged(requests: seq<Prompt>, tag: string): seq<Prompt> {
    if requests == [] then []
    else
      var n := |requests| - 1;
      Tagged(requests[..n], tag) + if requests[n].tag == tag then [requests[n]] else []
  }

  lemma {:induction false} PickedIsTagged(requests: seq<Prompt>, tag: string)
    ensures Picked(requests, Selected(requests, tag)) == Tagged(requests, tag)
  {
    if requests != [] {
      var n := |requests| - 1;
      PickedIsTagged(requests[..n], tag);
    }
  }

  /** The filter keeps exactly the requests with the tag, in order. */
  lemma FilterKeepsRequests(r: Record, tag: string)
    ensures FilterByTag(r, tag).requests == Tagged(r.requests, tag)
  {
    PickedIsTagged(r.requests, tag);
  }

  predicate TagsFirst(requests: seq<Prompt>, tag: string) {
    forall i, j :: 0 <= i < j < |requests| && requests[j].tag == tag ==> requests[i].tag == tag
  }

  predicate Identity(selected: seq<nat>) {
    forall k :: 0 <= k < |selected| ==> selected[k] == k
  }

  lemma SelectedFirst(requests: seq<Prompt>, tag: string)
    requires TagsFirst(requests, tag)
    ensures Identity(Selected(requests, tag))
  {
    var selected := Selected(requests, tag);
    forall k, o | 0 <= k < |selected| && 0 <= o < selected[k] ensures o in selected {
      assert requests[selected[k]].tag == tag;
    }
    InitialSegment(selected, |selected|);
  }

  lemma FirstSelected(requests: seq<Prompt>, tag: string)
    requires Identity(Selected(requests, tag))
    ensures TagsFirst(requests, tag)
  {
    var selected := Selected(requests, tag);
    forall i, j | 0 <= i < j < |requests| && requests[j].tag == tag ensures requests[i].tag == tag {
      assert j in selected;
      assert selected[i] == i;
    }
  }

  lemma PickedIndex(requests: seq<Prompt>, selected: seq<nat>)
    requires Indexed(requests) && forall k :: 0 <= k < |selected| ==> selected[k] < |requests|
    ensures Indexed(Picked(requests, selected)) <==> Identity(selected)
  {
    var picked := Picked(requests, selected);
    assert forall k :: 0 <= k < |selected| ==> picked[k].index == selected[k];
    if Indexed(picked) {
      assert forall k :: 0 <= k < |selected| ==> selected[k] == picked[k].index;
    }
  }

  /** After the filter, request i still has index i exactly when no request without the tag came before one with it:
      the filter renumbers the events, not the requests. */
  lemma IndexStaysIff(r: Record, tag: string)
    requires Indexed(r.requests)
    ensures Indexed(FilterByTag(r, tag).requests) <==> TagsFirst(r.requests, tag)
  {
    PickedIndex(r.requests, Selected(r.requests, tag));
    if TagsFirst(r.requests, tag) {
      SelectedFirst(r.requests, tag);
    } else if Identity(Selected(r.requests, tag)) {
      FirstSelected(r.requests, tag);
    }
  }

  /** A record whose second request alone has the tag: the request is kept, with its old index at place 0. */
  lemma IndexCanGoStale()
    ensures var requests := [Prompt(0, None, "a", "", "other"), Prompt(1, None, "b", "", "tag")];
      && Indexed(requests)
      && FilterByTag(Record(None, requests, [], []), "tag").requests == [requests[1]]
      && !Indexed([requests[1]])
  {
    var requests := [Prompt(0, None, "a", "", "other"), Prompt(1, None, "b", "", "tag")];
    FilterKeepsRequests(Record(None, requests, [], []), "tag");
    assert requests[..1] == [requests[0]];
    assert Tagged([requests[0]], "tag") == Tagged([], "tag") + [];
    assert [requests[1]][0].index == 1;
  }

  lemma {:induction false} InitialSegment(selected: seq<nat>, n: nat)
    requires n <= |selected|
    requires forall j, k :: 0 <= j < k < |selected| ==> selected[j] < selected[k]
    requires forall k, o :: 0 <= k < |selected| && 0 <= o < selected[k] ==> o in selected
    ensures forall k :: 0 <= k < n ==> selected[k] == k
  {
    if n > 0 {
      InitialSegment(selected, n - 1);
      if n > 1 {
        assert selected[n - 2] < selected[n - 1];
      }
      if selected[n - 1] > n - 1 {
        assert n - 1 in selected;
      }
    }
  }
}
