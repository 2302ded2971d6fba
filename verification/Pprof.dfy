/** The pprof encoder: interned strings, one function and location per frame, one sample per stack. */
module Pprof {
  import opened Sequences
  import opened Stacks
  import opened Wrappers

  const I64_MAX: int := 0x7FFF_FFFF_FFFF_FFFF

  datatype Function = Function(id: nat, name: nat, systemName: nat, filename: nat)

  /** A location has one line, in one function. */
  datatype Location = Location(id: nat, functionId: nat)

  datatype Sample = Sample(locationIds: seq<nat>, value: int, labelKey: nat, labelValue: nat)

  datatype Profile = Profile(
    sampleType: nat,
    unit: nat,
    samples: seq<Sample>,
    locations: seq<Location>,
    functions: seq<Function>,
    strings: seq<string>,
    timeNanos: int,
    durationNanos: int,
    defaultSampleType: nat)

  datatype Entry = Entry(stack: string, weight: nat)

  datatype Projection = Projection(view: string, sampleType: string, unit: string, stacks: seq<Entry>)

  // ----- interning

  predicate Distinct(items: seq<string>) {
    forall i, j :: 0 <= i < j < |items| ==> items[i] != items[j]
  }

  /** The string with this id. */
  predicate Holds(strings: seq<string>, id: nat, s: string) {
    id < |strings| && strings[id] == s
  }

  class StringInterner {
    var items: seq<string>
    var index: map<string, nat>

    /** The index is the table read backwards, so ids are in range and no two strings share one. */
    ghost predicate Valid()
      reads this
    {
      && Distinct(items)
      && (forall i :: 0 <= i < |items| ==> items[i] in index && index[items[i]] == i)
      && (forall s :: s in index ==> s in items)
    }

    constructor WithPprofRoot()
      ensures Valid() && items == [""]
    {
      items := [];
      index := map[];
      new;
      var _ := Intern("");
    }

    /** An interned string keeps its id for good: the table only ever grows at its end. */
    method Intern(value: string) returns (id: nat)
      requires Valid()
      modifies this
      ensures Valid()
      ensures items == if value in old(items) then old(items) else old(items) + [value]
      ensures old(items) <= items && Holds(items, id, value)
    {
      if value in index {
        return index[value];
      }
      id := |items|;
      items := items + [value];
      index := index[value := id];
    }
  }

  // ----- frames in order

  predicate StartsWith(s: string, prefix: string) {
    |prefix| <= |s| && s[..|prefix|] == prefix
  }

  function FirstPrompt(frames: seq<string>): (r: Option<nat>)
    ensures r.Some? ==> r.value < |frames|
  {
    if frames == [] then None
    else if StartsWith(frames[0], "prompt:") then Some(0)
    else match FirstPrompt(frames[1..]) case Some(i) => Some(i + 1) case None => None
  }

  /** The frames of a stack, root first; in the tasks view the first prompt frame moves to the leaf. */
  function RootToLeaf(view: string, stack: string): seq<string> {
    var frames := Frames(stack);
    match if view == "tasks" then FirstPrompt(frames) else None
    case Some(i) => frames[..i] + frames[i + 1..] + [frames[i]]
    case None => frames
  }

  /** Moving the prompt frame changes nothing: there is none, or from the first one on all frames are the same. */
  predicate Unmoved(view: string, stack: string) {
    var frames := Frames(stack);
    var i := FirstPrompt(frames);
    view == "tasks" && i.Some? ==> forall j :: i.value <= j < |frames| ==> frames[j] == frames[i.value]
  }

  lemma {:induction false} SameFrom(frames: seq<string>, i: nat, n: nat)
    requires i < n <= |frames|
    requires forall j :: i <= j < |frames| - 1 ==> frames[j] == frames[j + 1]
    ensures forall j :: i <= j < n ==> frames[j] == frames[i]
  {
    if i + 1 < n {
      SameFrom(frames, i, n - 1);
      assert frames[n - 2] == frames[n - 1];
    }
  }

  lemma MovedIff(frames: seq<string>, i: nat)
    requires i < |frames|
    ensures frames[..i] + frames[i + 1..] + [frames[i]] == frames <==>
      forall j :: i <= j < |frames| ==> frames[j] == frames[i]
  {
    var r, n := frames[..i] + frames[i + 1..] + [frames[i]], |frames|;
    assert r[n - 1] == frames[i] && forall j :: i <= j < n - 1 ==> r[j] == frames[j + 1];
    if r == frames {
      SameFrom(frames, i, n);
    }
  }

  lemma RootToLeafIff(view: string, stack: string)
    ensures RootToLeaf(view, stack) == Frames(stack) <==> Unmoved(view, stack)
  {
    if view == "tasks" && FirstPrompt(Frames(stack)).Some? {
      MovedIff(Frames(stack), FirstPrompt(Frames(stack)).value);
    }
  }

  lemma RootToLeafFrames(view: string, stack: string)
    ensures |RootToLeaf(view, stack)| == |Frames(stack)|
    ensures forall f :: f in RootToLeaf(view, stack) ==> f != "" && ';' !in f
  {
    PiecesAreWhole(stack);
    forall f | f in RootToLeaf(view, stack) ensures f in Frames(stack) {
    }
  }

  /** The frames in their order rejoin to the stack exactly when none is empty and moving changes nothing. */
  lemma JoinRootToLeafIff(view: string, stack: string)
    ensures Join(RootToLeaf(view, stack)) == stack <==> Clean(stack) && Unmoved(view, stack)
  {
    var r := RootToLeaf(view, stack);
    RootToLeafFrames(view, stack);
    RootToLeafIff(view, stack);
    JoinFramesIff(stack);
    if Join(r) == stack && r != [] {
      SplitJoin(r);
      NonEmptyLength(r);
    }
  }

  /** A prompt frame with another frame behind it is moved, and the stack does not come back. */
  lemma MovedPrompt(prompt: string, frame: string)
    requires StartsWith(prompt, "prompt:") && prompt != frame && frame != "" && ';' !in prompt && ';' !in frame
    ensures var stack := Join([prompt, frame]);
      RootToLeaf("tasks", stack) == [frame, prompt] && Join(RootToLeaf("tasks", stack)) != stack
  {
    var frames := [prompt, frame];
    var stack := Join(frames);
    assert prompt != "";
    SplitJoin(frames);
    NonEmptyLength(frames);
    assert Frames(stack) == frames;
    assert FirstPrompt(frames) == Some(0);
    assert frames[..0] + frames[1..] + [frames[0]] == [frame, prompt];
    assert frames[1] != frames[0];
    JoinRootToLeafIff("tasks", stack);
  }

  lemma PromptCanMove()
    ensures Join(RootToLeaf("tasks", Join(["prompt:a", "x"]))) != Join(["prompt:a", "x"])
  {
    MovedPrompt("prompt:a", "x");
  }

  /** The weight, or the greatest value there is. */
  function SaturateI64(w: nat): (r: int)
    ensures r <= I64_MAX && r <= w && (r == w || r == I64_MAX)
  {
    if w > I64_MAX then I64_MAX else w
  }

  // ----- reading a profile back

  /** The location with an id, the function with an id: as any reader of the format looks them up. */
  function FindLocation(ls: seq<Location>, id: nat): Option<Location> {
    if ls == [] then None else if ls[0].id == id then Some(ls[0]) else FindLocation(ls[1..], id)
  }

  function FindFunction(fs: seq<Function>, id: nat): Option<Function> {
    if fs == [] then None else if fs[0].id == id then Some(fs[0]) else FindFunction(fs[1..], id)
  }

  function NameOf(p: Profile, id: nat): Option<string> {
    var l := FindLocation(p.locations, id);
    if l.None? then None
    else
      var f := FindFunction(p.functions, l.value.functionId);
      if f.None? || f.value.name >= |p.strings| then None else Some(p.strings[f.value.name])
  }

  function NamesOf(p: Profile, ids: seq<nat>): Option<seq<string>> {
    if ids == [] then Some([])
    else
      var name, rest := NameOf(p, ids[0]), NamesOf(p, ids[1..]);
      if name.Some? && rest.Some? then Some([name.value] + rest.value) else None
  }

  /** A sample's stack: its names, leaf last, joined. */
  function StackOf(p: Profile, s: Sample): Option<string> {
    match NamesOf(p, s.locationIds) case Some(names) => Some(Join(Reverse(names))) case None => None
  }

  // ----- the encoder's tables

  /** The locations of the frames seen so far, and the tables they are in. */
  datatype Tables = Tables(frameLocations: map<string, nat>, locations: seq<Location>, functions: seq<Function>)

  predicate FunctionOk(f: Function, i: nat, strings: seq<string>) {
    f.id == i + 1 && f.name < |strings| && f.systemName == f.name && Holds(strings, f.filename, "agentpprof")
  }

  /** Ids count from 1 in step with the tables, and every name is in the string table. */
  ghost predicate TablesOk(ls: seq<Location>, fs: seq<Function>, strings: seq<string>) {
    && |ls| == |fs|
    && (forall i :: 0 <= i < |ls| ==> ls[i] == Location(i + 1, i + 1))
    && (forall i :: 0 <= i < |fs| ==> FunctionOk(fs[i], i, strings))
  }

  /** Location `id` leads to the name `frame`. */
  predicate Names(id: nat, frame: string, fs: seq<Function>, strings: seq<string>) {
    1 <= id <= |fs| && fs[id - 1].name < |strings| && strings[fs[id - 1].name] == frame
  }

  ghost predicate Valid(t: Tables, strings: seq<string>) {
    && TablesOk(t.locations, t.functions, strings)
    && |t.frameLocations| == |t.functions|
    && forall f :: f in t.frameLocations ==> Names(t.frameLocations[f], f, t.functions, strings)
  }

  ghost predicate Extends(fs: seq<Function>, strings: seq<string>, fs': seq<Function>, strings': seq<string>) {
    fs <= fs' && strings <= strings'
  }

  lemma NamesStay(id: nat, frame: string, fs: seq<Function>, strings: seq<string>, fs': seq<Function>, strings': seq<string>)
    requires Names(id, frame, fs, strings) && Extends(fs, strings, fs', strings')
    ensures Names(id, frame, fs', strings')
  {
  }

  /** The tables after a new frame. */
  function AddFrame(t: Tables, frame: string, name: nat, filename: nat): Tables {
    var id := |t.frameLocations| + 1;
    Tables(t.frameLocations[frame := id], t.locations + [Location(id, id)],
           t.functions + [Function(id, name, name, filename)])
  }

  lemma AddFrameKeeps(t: Tables, strings: seq<string>, frame: string, name: nat, filename: nat, strings': seq<string>)
    requires Valid(t, strings) && frame !in t.frameLocations
    requires strings <= strings' && Holds(strings', name, frame) && Holds(strings', filename, "agentpprof")
    ensures var t' := AddFrame(t, frame, name, filename);
      && Valid(t', strings') && Extends(t.functions, strings, t'.functions, strings')
      && Names(|t.frameLocations| + 1, frame, t'.functions, strings')
  {
    var t' := AddFrame(t, frame, name, filename);
    forall i | 0 <= i < |t'.functions| ensures FunctionOk(t'.functions[i], i, strings') {
      if i < |t.functions| {
        assert FunctionOk(t.functions[i], i, strings);
      }
    }
    forall f | f in t'.frameLocations ensures Names(t'.frameLocations[f], f, t'.functions, strings') {
      if f != frame {
        NamesStay(t.frameLocations[f], f, t.functions, strings, t'.functions, strings');
      }
    }
  }

  lemma {:induction false} FindLocationAt(ls: seq<Location>, i: nat, base: nat)
    requires i < |ls| && forall k :: 0 <= k < |ls| ==> ls[k] == Location(base + k + 1, base + k + 1)
    ensures FindLocation(ls, base + i + 1) == Some(ls[i])
  {
    if i > 0 {
      assert forall k :: 0 <= k < |ls[1..]| ==> ls[1..][k] == Location(base + 1 + k + 1, base + 1 + k + 1);
      FindLocationAt(ls[1..], i - 1, base + 1);
    }
  }

  lemma {:induction false} FindFunctionAt(fs: seq<Function>, i: nat, base: nat)
    requires i < |fs| && forall k :: 0 <= k < |fs| ==> fs[k].id == base + k + 1
    ensures FindFunction(fs, base + i + 1) == Some(fs[i])
  {
    if i > 0 {
      assert forall k :: 0 <= k < |fs[1..]| ==> fs[1..][k].id == base + 1 + k + 1;
      FindFunctionAt(fs[1..], i - 1, base + 1);
    }
  }

  lemma NameAt(p: Profile, id: nat)
    requires TablesOk(p.locations, p.functions, p.strings) && 1 <= id <= |p.functions|
    ensures NameOf(p, id) == Some(p.strings[p.functions[id - 1].name])
  {
    FindLocationAt(p.locations, id - 1, 0);
    assert forall k :: 0 <= k < |p.functions| ==> FunctionOk(p.functions[k], k, p.strings);
    FindFunctionAt(p.functions, id - 1, 0);
  }

  /** The ids of a sample stand for these frames. */
  ghost predicate IdsName(ids: seq<nat>, frames: seq<string>, fs: seq<Function>, strings: seq<string>) {
    |ids| == |frames| && forall i :: 0 <= i < |ids| ==> Names(ids[i], frames[i], fs, strings)
  }

  lemma IdsStay(ids: seq<nat>, frames: seq<string>, fs: seq<Function>, strings: seq<string>, fs': seq<Function>, strings': seq<string>)
    requires IdsName(ids, frames, fs, strings) && Extends(fs, strings, fs', strings')
    ensures IdsName(ids, frames, fs', strings')
  {
    forall i | 0 <= i < |ids| ensures Names(ids[i], frames[i], fs', strings') {
      NamesStay(ids[i], frames[i], fs, strings, fs', strings');
    }
  }

  lemma IdsGrow(ids: seq<nat>, id: nat, frames: seq<string>, frame: string, fs: seq<Function>, strings: seq<string>,
                fs': seq<Function>, strings': seq<string>)
    requires IdsName(ids, frames, fs, strings) && Extends(fs, strings, fs', strings') && Names(id, frame, fs', strings')
    ensures IdsName(ids + [id], frames + [frame], fs', strings')
  {
    IdsStay(ids, frames, fs, strings, fs', strings');
  }

  lemma {:induction false} NamesAt(p: Profile, ids: seq<nat>, frames: seq<string>)
    requires TablesOk(p.locations, p.functions, p.strings) && IdsName(ids, frames, p.functions, p.strings)
    ensures NamesOf(p, ids) == Some(frames)
  {
    if ids != [] {
      NameAt(p, ids[0]);
      NamesAt(p, ids[1..], frames[1..]);
      assert frames == [frames[0]] + frames[1..];
    }
  }

  ghost predicate SampleOk(s: Sample, view: string, e: Entry, fs: seq<Function>, strings: seq<string>) {
    && s.value == SaturateI64(e.weight)
    && Holds(strings, s.labelKey, "view") && Holds(strings, s.labelValue, view)
    && IdsName(s.locationIds, Reverse(RootToLeaf(view, e.stack)), fs, strings)
  }

  ghost predicate SamplesOk(samples: seq<Sample>, view: string, stacks: seq<Entry>, fs: seq<Function>, strings: seq<string>) {
    |samples| <= |stacks| && forall j :: 0 <= j < |samples| ==> SampleOk(samples[j], view, stacks[j], fs, strings)
  }

  lemma SamplesStay(samples: seq<Sample>, view: string, stacks: seq<Entry>, fs: seq<Function>, strings: seq<string>,
                    fs': seq<Function>, strings': seq<string>)
    requires SamplesOk(samples, view, stacks, fs, strings) && Extends(fs, strings, fs', strings')
    ensures SamplesOk(samples, view, stacks, fs', strings')
  {
    forall j | 0 <= j < |samples| ensures SampleOk(samples[j], view, stacks[j], fs', strings') {
      IdsStay(samples[j].locationIds, Reverse(RootToLeaf(view, stacks[j].stack)), fs, strings, fs', strings');
    }
  }

  lemma SamplesGrow(samples: seq<Sample>, s: Sample, view: string, stacks: seq<Entry>, fs: seq<Function>,
                    strings: seq<string>, fs': seq<Function>, strings': seq<string>)
    requires SamplesOk(samples, view, stacks, fs, strings) && Extends(fs, strings, fs', strings')
    requires |samples| < |stacks| && SampleOk(s, view, stacks[|samples|], fs', strings')
    ensures SamplesOk(samples + [s], view, stacks, fs', strings')
  {
    SamplesStay(samples, view, stacks, fs, strings, fs', strings');
  }

  // ----- the encoder

  /** The strings a profile always holds, interned before any frame. */
  datatype Header = Header(sampleType: nat, unit: nat, labelView: nat, labelValue: nat, filename: nat)

  ghost predicate HeaderOk(h: Header, projection: Projection, strings: seq<string>) {
    && Holds(strings, h.sampleType, projection.sampleType) && Holds(strings, h.unit, projection.unit)
    && Holds(strings, h.labelView, "view") && Holds(strings, h.labelValue, projection.view)
    && Holds(strings, h.filename, "agentpprof")
  }

  /** The location of one frame, entered into the tables if it is new. */
  method LocateFrame(frame: string, strings: StringInterner, filename: nat, t: Tables) returns (id: nat, t': Tables)
    requires strings.Valid() && Valid(t, strings.items) && Holds(strings.items, filename, "agentpprof")
    modifies strings
    ensures strings.Valid() && Valid(t', strings.items)
    ensures Extends(t.functions, old(strings.items), t'.functions, strings.items)
    ensures Names(id, frame, t'.functions, strings.items)
  {
    if frame in t.frameLocations {
      return t.frameLocations[frame], t;
    }
    ghost var before := strings.items;
    id := |t.frameLocations| + 1;
    var name := strings.Intern(frame);
    t' := AddFrame(t, frame, name, filename);
    AddFrameKeeps(t, before, frame, name, filename, strings.items);
  }

  /** The location ids of one stack, leaf first. */
  method EncodeStack(frames: seq<string>, strings: StringInterner, filename: nat, t0: Tables)
    returns (ids: seq<nat>, t: Tables)
    requires strings.Valid() && Valid(t0, strings.items) && Holds(strings.items, filename, "agentpprof")
    modifies strings
    ensures strings.Valid() && Valid(t, strings.items)
    ensures Extends(t0.functions, old(strings.items), t.functions, strings.items)
    ensures IdsName(ids, Reverse(frames), t.functions, strings.items)
  {
    t, ids := t0, [];
    var reversed := Reverse(frames);
    var i := 0;
    while i < |reversed|
      invariant i <= |reversed| && strings.Valid() && Valid(t, strings.items)
      invariant Extends(t0.functions, old(strings.items), t.functions, strings.items)
      invariant IdsName(ids, reversed[..i], t.functions, strings.items)
    {
      ghost var fs, items := t.functions, strings.items;
      var id;
      id, t := LocateFrame(reversed[i], strings, filename, t);
      IdsGrow(ids, id, reversed[..i], reversed[i], fs, items, t.functions, strings.items);
      TakeNext(reversed, i);
      ids := ids + [id];
      i := i + 1;
    }
    assert reversed[..i] == reversed;
  }

  /** One sample for each stack, in order. */
  method EncodeSamples(projection: Projection, strings: StringInterner, h: Header)
    returns (samples: seq<Sample>, t: Tables)
    requires strings.Valid() && HeaderOk(h, projection, strings.items)
    modifies strings
    ensures strings.Valid() && Valid(t, strings.items) && old(strings.items) <= strings.items
    ensures |samples| == |projection.stacks|
    ensures SamplesOk(samples, projection.view, projection.stacks, t.functions, strings.items)
  {
    samples, t := [], Tables(map[], [], []);
    var k := 0;
    while k < |projection.stacks|
      invariant k <= |projection.stacks| && |samples| == k
      invariant strings.Valid() && Valid(t, strings.items) && old(strings.items) <= strings.items
      invariant SamplesOk(samples, projection.view, projection.stacks, t.functions, strings.items)
    {
      var e := projection.stacks[k];
      ghost var fs, items := t.functions, strings.items;
      var ids;
      ids, t := EncodeStack(RootToLeaf(projection.view, e.stack), strings, h.filename, t);
      var sample := Sample(ids, SaturateI64(e.weight), h.labelView, h.labelValue);
      SamplesGrow(samples, sample, projection.view, projection.stacks, fs, items, t.functions, strings.items);
      samples := samples + [sample];
      k := k + 1;
    }
  }

  method InternSampleType(projection: Projection, strings: StringInterner) returns (sampleType: nat, unit: nat)
    requires strings.Valid()
    modifies strings
    ensures strings.Valid() && old(strings.items) <= strings.items
    ensures Holds(strings.items, sampleType, projection.sampleType) && Holds(strings.items, unit, projection.unit)
  {
    sampleType := strings.Intern(projection.sampleType);
    unit := strings.Intern(projection.unit);
  }

  method InternHeader(projection: Projection, strings: StringInterner) returns (h: Header)
    requires strings.Valid()
    modifies strings
    ensures strings.Valid() && old(strings.items) <= strings.items && HeaderOk(h, projection, strings.items)
  {
    var sampleType, unit := InternSampleType(projection, strings);
    var labelView := strings.Intern("view");
    var labelValue := strings.Intern(projection.view);
    var filename := strings.Intern("agentpprof");
    h := Header(sampleType, unit, labelView, labelValue, filename);
  }

  /** Encodes a projection; following location, function and string ids of each sample leads back to the frames of
      its stack. `now` is the time in nanoseconds, if it fits. */
  method EncodeProjection(projection: Projection, now: Option<int>) returns (p: Profile)
    ensures Encodes(p, projection)
    ensures p.timeNanos == (if now.Some? then now.value else 0) && p.durationNanos == 0
  {
    var strings := new StringInterner.WithPprofRoot();
    var h := InternHeader(projection, strings);
    var samples, t := EncodeSamples(projection, strings, h);
    p := Profile(h.sampleType, h.unit, samples, t.locations, t.functions, strings.items,
                 if now.Some? then now.value else 0, 0, h.sampleType);
  }

  /** A profile of a projection: the string table starts with "" and repeats nothing, the sample type and unit are in
      it, and each sample, in order, leads back to its stack's frames. */
  ghost predicate Encodes(p: Profile, projection: Projection) {
    && Distinct(p.strings) && p.strings != [] && p.strings[0] == ""
    && Holds(p.strings, p.sampleType, projection.sampleType) && Holds(p.strings, p.unit, projection.unit)
    && p.defaultSampleType == p.sampleType
    && TablesOk(p.locations, p.functions, p.strings)
    && |p.samples| == |projection.stacks|
    && SamplesOk(p.samples, projection.view, projection.stacks, p.functions, p.strings)
  }

  // ----- decoding undoes encoding

  /** What a reader gets for each stack: its frames rejoined, and its weight up to the largest 64-bit integer. */
  lemma SampleReadsBack(p: Profile, projection: Projection, k: nat)
    requires Encodes(p, projection) && k < |projection.stacks|
    ensures StackOf(p, p.samples[k]) == Some(Join(RootToLeaf(projection.view, projection.stacks[k].stack)))
    ensures p.samples[k].value == SaturateI64(projection.stacks[k].weight)
  {
    var frames := RootToLeaf(projection.view, projection.stacks[k].stack);
    assert SampleOk(p.samples[k], projection.view, projection.stacks[k], p.functions, p.strings);
    NamesAt(p, p.samples[k].locationIds, Reverse(frames));
    ReverseTwice(frames);
  }

  /** The profile gives back a stack and its weight exactly when the stack has no empty frame, no prompt frame was
      moved, and the weight fits 64 bits. */
  lemma SampleInvertibleIff(p: Profile, projection: Projection, k: nat)
    requires Encodes(p, projection) && k < |projection.stacks|
    ensures var e := projection.stacks[k];
      StackOf(p, p.samples[k]) == Some(e.stack) && p.samples[k].value == e.weight <==> Invertible(projection.view, e)
  {
    SampleReadsBack(p, projection, k);
    JoinRootToLeafIff(projection.view, projection.stacks[k].stack);
  }

  predicate Invertible(view: string, e: Entry) {
    Clean(e.stack) && Unmoved(view, e.stack) && e.weight <= I64_MAX
  }

  /** The stack-to-weight map of a projection, and the one a reader rebuilds. */
  ghost function StackMap(stacks: seq<Entry>): map<string, int> {
    if stacks == [] then map[]
    else StackMap(stacks[..|stacks| - 1])[stacks[|stacks| - 1].stack := stacks[|stacks| - 1].weight]
  }

  ghost function Rebuilt(p: Profile, n: nat): map<string, int>
    requires n <= |p.samples|
  {
    if n == 0 then map[]
    else
      match StackOf(p, p.samples[n - 1])
      case Some(stack) => Rebuilt(p, n - 1)[stack := p.samples[n - 1].value]
      case None => Rebuilt(p, n - 1)
  }

  /** Every sample reads back as its entry. */
  ghost predicate ReadsBack(p: Profile, stacks: seq<Entry>) {
    && |p.samples| == |stacks|
    && forall k :: 0 <= k < |stacks| ==>
         StackOf(p, p.samples[k]) == Some(stacks[k].stack) && p.samples[k].value == stacks[k].weight
  }

  lemma {:induction false} RebuiltUpTo(p: Profile, stacks: seq<Entry>, n: nat)
    requires ReadsBack(p, stacks) && n <= |stacks|
    ensures Rebuilt(p, n) == StackMap(stacks[..n])
  {
    if n > 0 {
      RebuiltUpTo(p, stacks, n - 1);
      assert StackOf(p, p.samples[n - 1]) == Some(stacks[n - 1].stack);
      assert stacks[..n][..n - 1] == stacks[..n - 1];
    }
  }

  /** The encoding is invertible: for stacks without empty frames and moved prompts, and weights that fit, a reader
      rebuilds exactly the stack-to-weight map. */
  lemma ProfileRebuildsMap(p: Profile, projection: Projection)
    requires Encodes(p, projection)
    requires forall e :: e in projection.stacks ==> Invertible(projection.view, e)
    ensures Rebuilt(p, |p.samples|) == StackMap(projection.stacks)
  {
    forall k | 0 <= k < |projection.stacks|
      ensures StackOf(p, p.samples[k]) == Some(projection.stacks[k].stack)
      ensures p.samples[k].value == projection.stacks[k].weight
    {
      assert projection.stacks[k] in projection.stacks;
      SampleInvertibleIff(p, projection, k);
    }
    RebuiltUpTo(p, projection.stacks, |p.samples|);
    assert projection.stacks[..|p.samples|] == projection.stacks;
  }
}
