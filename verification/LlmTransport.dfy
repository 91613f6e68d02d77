// The chat-completions transport (backend/app/llm_transport.py): one streamed
// call, the retry loop around it, the think-stripping tail of the
// non-streamed call, and the merging of tool-call fragments.
//
// The network is an input: an `Attempt` is what one HTTP call delivers.
module LlmTransport {
  import opened Basics
  import opened PyText
  import opened ReasoningSplit

  // `Failure` stands for a raised exception; only its retryability matters.
  datatype Failure = Failure(retryable: bool, message: string)

  const EMPTY_RESPONSE := Failure(true, "no valid SSE event")
  const CALL_FAILED := Failure(false, "LLM call failed")

  // ----- tool-call fragments -----

  // A missing `index` is 0; a missing id, name or arguments is "".
  datatype ToolDelta = ToolDelta(index: int, id: string, name: string, arguments: string)
  datatype Slot = Slot(id: string, name: string, arguments: string)

  const EMPTY_SLOT := Slot("", "", "")

  // ----- one streamed call -----

  datatype Chunk = Chunk(usage: Option<int>, hasChoice: bool, reasoning: string, content: string, tools: seq<ToolDelta>)
  datatype Line = Skipped | DoneMark | Data(chunk: Chunk)

  // `aborted` is the abort event as it is when the line is read.
  datatype Tick = Tick(aborted: bool, line: Line)

  // `rejected` is an HTTP status >= 400; `dropped` is an exception raised by
  // the connection after the given lines.
  datatype Attempt = Attempt(rejected: Option<Failure>, ticks: seq<Tick>, dropped: Option<Failure>)

  datatype Event =
    | ReasoningDelta(text: string)
    | ContentDelta(text: string)
    | ToolCallDelta(index: int, id: string, name: string, argumentsSoFar: string)
    | Done(content: string, toolCalls: Option<seq<Slot>>, usage: Option<int>)

  datatype Outcome = Outcome(events: seq<Event>, failure: Option<Failure>)

  datatype Acc = Acc(events: seq<Event>, content: string, split: State, tools: map<int, Slot>, usage: Option<int>) {
    function Send(e: Event): Acc {
      this.(events := events + [e])
    }

    function SendReasoning(text: string): Acc {
      if text == "" then this else Send(ReasoningDelta(text))
    }

    function SendContent(text: string): Acc {
      if text == "" then this else this.(content := content + text).Send(ContentDelta(text))
    }
  }

  const FRESH := Acc([], "", START, map[], None)

  function SlotAt(tools: map<int, Slot>, index: int): Slot {
    if index in tools then tools[index] else EMPTY_SLOT
  }

  // The streamed call overwrites the name, unlike `Merged` below.
  function Updated(slot: Slot, d: ToolDelta): Slot {
    Slot(if d.id != "" then d.id else slot.id,
         if d.name != "" then d.name else slot.name,
         slot.arguments + d.arguments)
  }

  function AbsorbTool(acc: Acc, d: ToolDelta): Acc {
    var slot := Updated(SlotAt(acc.tools, d.index), d);
    acc.(tools := acc.tools[d.index := slot]).Send(ToolCallDelta(d.index, slot.id, slot.name, slot.arguments))
  }

  function AbsorbTools(acc: Acc, ds: seq<ToolDelta>): Acc
    decreases |ds|
  {
    if ds == [] then acc else AbsorbTool(AbsorbTools(acc, ds[..|ds| - 1]), ds[|ds| - 1])
  }

  function AbsorbContent(acc: Acc, text: string): Acc {
    if text == "" then acc
    else
      var run := FeedOnce(DEFAULT_TAGS, acc.split, text);
      acc.(split := run.st).SendReasoning(run.out.reasoning).SendContent(run.out.visible)
  }

  function Absorb(acc: Acc, c: Chunk): Acc {
    var counted := if c.usage.Some? then acc.(usage := c.usage) else acc;
    if !c.hasChoice then counted
    else AbsorbTools(AbsorbContent(counted.SendReasoning(c.reasoning), c.content), c.tools)
  }

  function AbsorbAll(acc: Acc, cs: seq<Chunk>): Acc
    decreases |cs|
  {
    if cs == [] then acc else Absorb(AbsorbAll(acc, cs[..|cs| - 1]), cs[|cs| - 1])
  }

  // The line at which the loop stops: an abort, the end mark or the last one.
  function StopAt(ticks: seq<Tick>, from: nat): (r: nat)
    requires from <= |ticks|
    ensures from <= r <= |ticks|
    decreases |ticks| - from
  {
    if from == |ticks| || ticks[from].aborted || ticks[from].line.DoneMark? then from
    else StopAt(ticks, from + 1)
  }

  function ChunksOf(ticks: seq<Tick>): seq<Chunk> {
    if ticks == [] then []
    else ChunksOf(ticks[..|ticks| - 1]) +
         (match ticks[|ticks| - 1].line case Data(c) => [c] case _ => [])
  }

  function Received(a: Attempt): seq<Chunk> {
    ChunksOf(a.ticks[..StopAt(a.ticks, 0)])
  }

  // ----- the sorted tool calls of the final message -----

  function FinalCalls(tools: map<int, Slot>): (r: seq<Slot>) {
    var keys := SortedKeys(tools.Keys);
    seq(|keys|, i requires 0 <= i < |keys| => SlotAt(tools, keys[i]))
  }

  function Finish(acc: Acc): Acc {
    var tail := FlushOut(acc.split);
    var flushed := acc.SendReasoning(tail.reasoning).SendContent(tail.visible);
    var calls := FinalCalls(acc.tools);
    flushed.Send(Done(flushed.content, if calls == [] then None else Some(calls), acc.usage))
  }

  // What one call yields and how it ends.
  function Once(a: Attempt): Outcome {
    if a.rejected.Some? then Outcome([], a.rejected)
    else
      var cs := Received(a);
      var acc := AbsorbAll(FRESH, cs);
      if StopAt(a.ticks, 0) == |a.ticks| && a.dropped.Some? then Outcome(acc.events, a.dropped)
      else if cs == [] then Outcome(acc.events, Some(EMPTY_RESPONSE))
      else Outcome(Finish(acc).events, None)
  }

  class StreamCall {
    var events: seq<Event>
    var accumulatedContent: string
    var usageData: Option<int>
    var toolBuf: map<int, Slot>
    const splitter: ReasoningSplitter

    ghost function Abs(): Acc
      reads this, splitter
    {
      Acc(events, accumulatedContent, splitter.Abs(), toolBuf, usageData)
    }

    ghost predicate Valid()
      reads this
    {
      splitter.tags == DEFAULT_TAGS
    }

    constructor ()
      ensures Valid() && Abs() == FRESH && fresh(splitter)
    {
      splitter := new ReasoningSplitter(DEFAULT_TAGS);
      events, accumulatedContent, usageData, toolBuf := [], "", None, map[];
    }

    method YieldParts(visible: string, reasoning: string)
      requires Valid()
      modifies this
      ensures Abs() == old(Abs()).SendReasoning(reasoning).SendContent(visible)
    {
      if reasoning != "" {
        events := events + [ReasoningDelta(reasoning)];
      }
      if visible != "" {
        accumulatedContent := accumulatedContent + visible;
        events := events + [ContentDelta(visible)];
      }
    }

    method TakeContent(text: string)
      requires Valid()
      modifies this, splitter
      ensures Abs() == AbsorbContent(old(Abs()), text)
    {
      if text != "" {
        var visible, reasoning := splitter.Feed(text);
        YieldParts(visible, reasoning);
      }
    }

    method TakeTool(tc: ToolDelta)
      requires Valid()
      modifies this
      ensures Abs() == AbsorbTool(old(Abs()), tc)
    {
      var buf := if tc.index in toolBuf then toolBuf[tc.index] else EMPTY_SLOT;
      if tc.id != "" {
        buf := buf.(id := tc.id);
      }
      if tc.name != "" {
        buf := buf.(name := tc.name);
      }
      assert buf.arguments + "" == buf.arguments;
      if tc.arguments != "" {
        buf := buf.(arguments := buf.arguments + tc.arguments);
      }
      toolBuf := toolBuf[tc.index := buf];
      events := events + [ToolCallDelta(tc.index, buf.id, buf.name, buf.arguments)];
    }

    method TakeTools(tools: seq<ToolDelta>)
      requires Valid()
      modifies this
      ensures Abs() == AbsorbTools(old(Abs()), tools)
    {
      hide AbsorbTool;
      for i := 0 to |tools|
        invariant Abs() == AbsorbTools(old(Abs()), tools[..i])
      {
        TakeTool(tools[i]);
        assert tools[..i + 1][..i] == tools[..i];
      }
      assert tools[..|tools|] == tools;
    }

    method TakeChunk(chunk: Chunk)
      requires Valid()
      modifies this, splitter
      ensures Abs() == Absorb(old(Abs()), chunk)
    {
      if chunk.usage.Some? {
        usageData := chunk.usage;
      }
      if !chunk.hasChoice {
        return;
      }
      YieldParts("", chunk.reasoning);
      TakeContent(chunk.content);
      TakeTools(chunk.tools);
    }

    method FlushTail()
      requires Valid()
      modifies this, splitter
      ensures Valid()
      ensures events == old(Finish(Abs()).events)
    {
      ghost var before := Abs();
      var tailVisible, tailReasoning := splitter.Flush();
      YieldParts(tailVisible, tailReasoning);
      var calls := FinalCalls(toolBuf);
      events := events + [Done(accumulatedContent, if calls == [] then None else Some(calls), usageData)];
    }
  }

  method StreamChunksOnce(a: Attempt) returns (out: Outcome)
    ensures out == Once(a)
  {
    hide Absorb, AbsorbAll, ChunksOf, Finish;
    if a.rejected.Some? {
      return Outcome([], a.rejected);
    }
    var call := new StreamCall();
    var receivedEvent := false;
    var i := 0;
    NothingRead(a.ticks);
    while i < |a.ticks|
      invariant i <= |a.ticks| && StopAt(a.ticks, i) == StopAt(a.ticks, 0)
      invariant call.Valid() && fresh(call) && fresh(call.splitter)
      invariant call.Abs() == AbsorbAll(FRESH, ChunksOf(a.ticks[..i]))
      invariant receivedEvent == (ChunksOf(a.ticks[..i]) != [])
    {
      if a.ticks[i].aborted || a.ticks[i].line.DoneMark? {
        break;
      }
      LineRead(a.ticks, i);
      if a.ticks[i].line.Data? {
        receivedEvent := true;
        call.TakeChunk(a.ticks[i].line.chunk);
      }
      i := i + 1;
    }
    if i == |a.ticks| && a.dropped.Some? {
      return Outcome(call.events, a.dropped);
    }
    if !receivedEvent {
      return Outcome(call.events, Some(EMPTY_RESPONSE));
    }
    call.FlushTail();
    out := Outcome(call.events, None);
  }

  lemma NothingRead(ticks: seq<Tick>)
    ensures ticks[..0] == [] && ChunksOf(ticks[..0]) == [] && AbsorbAll(FRESH, []) == FRESH
  {
  }

  lemma LineRead(ticks: seq<Tick>, i: nat)
    requires i < |ticks|
    ensures var seen, now := ChunksOf(ticks[..i]), ChunksOf(ticks[..i + 1]);
            if ticks[i].line.Data? then
              && now == seen + [ticks[i].line.chunk]
              && AbsorbAll(FRESH, now) == Absorb(AbsorbAll(FRESH, seen), ticks[i].line.chunk)
            else now == seen
  {
    hide Absorb;
    var seen := ChunksOf(ticks[..i]);
    assert ticks[..i + 1][..i] == ticks[..i];
    assert seen + [] == seen;
    if ticks[i].line.Data? {
      assert (seen + [ticks[i].line.chunk])[..|seen|] == seen;
    }
  }

  // ----- what the events carry -----

  function ContentText(es: seq<Event>): string {
    if es == [] then ""
    else ContentText(es[..|es| - 1]) + (match es[|es| - 1] case ContentDelta(t) => t case _ => "")
  }

  function ReasoningText(es: seq<Event>): string {
    if es == [] then ""
    else ReasoningText(es[..|es| - 1]) + (match es[|es| - 1] case ReasoningDelta(t) => t case _ => "")
  }

  function ToolEvents(es: seq<Event>): seq<Event> {
    if es == [] then []
    else ToolEvents(es[..|es| - 1]) + (if es[|es| - 1].ToolCallDelta? then [es[|es| - 1]] else [])
  }

  ghost predicate NoDone(es: seq<Event>) {
    forall e :: e in es ==> !e.Done?
  }

  lemma EventsSnoc(es: seq<Event>, e: Event)
    ensures ContentText(es + [e]) == ContentText(es) + (match e case ContentDelta(t) => t case _ => "")
    ensures ReasoningText(es + [e]) == ReasoningText(es) + (match e case ReasoningDelta(t) => t case _ => "")
    ensures ToolEvents(es + [e]) == ToolEvents(es) + (if e.ToolCallDelta? then [e] else [])
  {
    assert (es + [e])[..|es|] == es;
  }

  lemma ReasoningSent(acc: Acc, text: string)
    requires NoDone(acc.events)
    ensures var next := acc.SendReasoning(text);
            && NoDone(next.events)
            && ContentText(next.events) == ContentText(acc.events)
            && ReasoningText(next.events) == ReasoningText(acc.events) + text
            && ToolEvents(next.events) == ToolEvents(acc.events)
  {
    hide ContentText, ReasoningText, ToolEvents;
    EventsSnoc(acc.events, ReasoningDelta(text));
    Unextended(acc.events, text);
  }

  lemma ContentSent(acc: Acc, text: string)
    requires NoDone(acc.events)
    ensures var next := acc.SendContent(text);
            && NoDone(next.events)
            && next.content == acc.content + text
            && ContentText(next.events) == ContentText(acc.events) + text
            && ReasoningText(next.events) == ReasoningText(acc.events)
            && ToolEvents(next.events) == ToolEvents(acc.events)
  {
    hide ContentText, ReasoningText, ToolEvents;
    EventsSnoc(acc.events, ContentDelta(text));
    Unextended(acc.events, text);
    assert text == "" ==> acc.content + text == acc.content;
  }

  lemma Unextended(es: seq<Event>, text: string)
    ensures ContentText(es) + "" == ContentText(es)
    ensures ReasoningText(es) + "" == ReasoningText(es)
    ensures ToolEvents(es) + [] == ToolEvents(es)
    ensures text == "" ==> ContentText(es) + text == ContentText(es) && ReasoningText(es) + text == ReasoningText(es)
  {
  }

  // ----- the content pieces and the tool fragments of the received chunks -----

  function Pieces(cs: seq<Chunk>): seq<string> {
    if cs == [] then []
    else
      var c := cs[|cs| - 1];
      Pieces(cs[..|cs| - 1]) + (if c.hasChoice && c.content != "" then [c.content] else [])
  }

  function Fragments(cs: seq<Chunk>): seq<ToolDelta> {
    if cs == [] then []
    else
      var c := cs[|cs| - 1];
      Fragments(cs[..|cs| - 1]) + (if c.hasChoice then c.tools else [])
  }

  function SeparateReasoning(cs: seq<Chunk>): string {
    if cs == [] then ""
    else
      var c := cs[|cs| - 1];
      SeparateReasoning(cs[..|cs| - 1]) + (if c.hasChoice then c.reasoning else "")
  }

  // The reasoning that the splitter finds in a piece of content.
  function FoundIn(split: State, text: string): string {
    if text == "" then "" else FeedOnce(DEFAULT_TAGS, split, text).out.reasoning
  }

  // All the reasoning, in order: of each chunk first what came in its own
  // field, then what the splitter finds in its content.
  function Thoughts(cs: seq<Chunk>): string {
    if cs == [] then ""
    else
      var front, c := cs[..|cs| - 1], cs[|cs| - 1];
      Thoughts(front)
      + (if c.hasChoice then c.reasoning + FoundIn(FeedAll(DEFAULT_TAGS, START, Pieces(front)).st, c.content) else "")
  }

  function LastUsage(cs: seq<Chunk>): Option<int> {
    if cs == [] then None
    else if cs[|cs| - 1].usage.Some? then cs[|cs| - 1].usage
    else LastUsage(cs[..|cs| - 1])
  }

  // ----- one tool slot: its own fragments, whatever lies between them -----

  function OfIndex(ds: seq<ToolDelta>, k: int): seq<ToolDelta> {
    if ds == [] then []
    else OfIndex(ds[..|ds| - 1], k) + (if ds[|ds| - 1].index == k then [ds[|ds| - 1]] else [])
  }

  function Arguments(ds: seq<ToolDelta>): string {
    if ds == [] then "" else Arguments(ds[..|ds| - 1]) + ds[|ds| - 1].arguments
  }

  function Names(ds: seq<ToolDelta>): string {
    if ds == [] then "" else Names(ds[..|ds| - 1]) + ds[|ds| - 1].name
  }

  function LastName(ds: seq<ToolDelta>): string {
    if ds == [] then ""
    else if ds[|ds| - 1].name != "" then ds[|ds| - 1].name
    else LastName(ds[..|ds| - 1])
  }

  function LastId(ds: seq<ToolDelta>): string {
    if ds == [] then ""
    else if ds[|ds| - 1].id != "" then ds[|ds| - 1].id
    else LastId(ds[..|ds| - 1])
  }

  // The slot that the fragments of index `k` alone describe.
  function Assembled(ds: seq<ToolDelta>, k: int): Slot {
    var own := OfIndex(ds, k);
    Slot(LastId(own), LastName(own), Arguments(own))
  }

  ghost predicate ToolsFollow(acc: Acc, ds: seq<ToolDelta>) {
    && (forall k :: SlotAt(acc.tools, k) == Assembled(ds, k))
    && (forall k :: k in acc.tools <==> OfIndex(ds, k) != [])
    && |ToolEvents(acc.events)| == |ds|
    && forall i :: 0 <= i < |ds| ==>
         var slot := Assembled(ds[..i + 1], ds[i].index);
         ToolEvents(acc.events)[i] == ToolCallDelta(ds[i].index, slot.id, slot.name, slot.arguments)
  }

  lemma AssembledSnoc(ds: seq<ToolDelta>, d: ToolDelta, k: int)
    ensures OfIndex(ds + [d], k) == OfIndex(ds, k) + (if d.index == k then [d] else [])
    ensures Assembled(ds + [d], k) == if d.index == k then Updated(Assembled(ds, k), d) else Assembled(ds, k)
  {
    assert (ds + [d])[..|ds|] == ds;
    var own := OfIndex(ds, k);
    assert (own + [d])[..|own|] == own;
    assert own + [] == own;
  }

  lemma ToolAbsorbed(acc: Acc, ds: seq<ToolDelta>, d: ToolDelta)
    requires NoDone(acc.events) && ToolsFollow(acc, ds)
    ensures var next := AbsorbTool(acc, d);
            && NoDone(next.events) && ToolsFollow(next, ds + [d])
            && next.content == acc.content && next.split == acc.split && next.usage == acc.usage
            && ContentText(next.events) == ContentText(acc.events)
            && ReasoningText(next.events) == ReasoningText(acc.events)
  {
    hide ContentText, ReasoningText, ToolEvents, OfIndex, Assembled;
    var next, all := AbsorbTool(acc, d), ds + [d];
    forall k {
      AssembledSnoc(ds, d, k);
    }
    var e := next.events[|acc.events|];
    EventsSnoc(acc.events, e);
    Unextended(acc.events, "");
    assert forall k :: k in next.tools <==> k in acc.tools || k == d.index;
    forall i | 0 <= i < |all|
      ensures var slot := Assembled(all[..i + 1], all[i].index);
              ToolEvents(next.events)[i] == ToolCallDelta(all[i].index, slot.id, slot.name, slot.arguments)
    {
      if i < |ds| {
        assert all[..i + 1] == ds[..i + 1];
      } else {
        assert all[..i + 1] == all;
      }
    }
  }

  lemma {:induction false} ToolsAbsorbed(acc: Acc, ds: seq<ToolDelta>, more: seq<ToolDelta>)
    requires NoDone(acc.events) && ToolsFollow(acc, ds)
    ensures var next := AbsorbTools(acc, more);
            && NoDone(next.events) && ToolsFollow(next, ds + more)
            && next.content == acc.content && next.split == acc.split && next.usage == acc.usage
            && ContentText(next.events) == ContentText(acc.events)
            && ReasoningText(next.events) == ReasoningText(acc.events)
    decreases |more|
  {
    hide ToolsFollow, AbsorbTool, ContentText, ReasoningText;
    if more == [] {
      assert ds + more == ds;
    } else {
      var n := |more| - 1;
      ToolsAbsorbed(acc, ds, more[..n]);
      ToolAbsorbed(AbsorbTools(acc, more[..n]), ds + more[..n], more[n]);
      assert ds + more == ds + more[..n] + [more[n]];
    }
  }

  // ----- the state after any sequence of chunks -----

  // `ps` are the content pieces so far, `ds` the tool fragments, `u` the last
  // usage and `thoughts` all the reasoning.
  ghost predicate Tracks(acc: Acc, ps: seq<string>, ds: seq<ToolDelta>, u: Option<int>, thoughts: string) {
    var run := FeedAll(DEFAULT_TAGS, START, ps);
    && NoDone(acc.events)
    && acc.split == run.st
    && acc.content == run.out.visible
    && ContentText(acc.events) == acc.content
    && ReasoningText(acc.events) == thoughts
    && ToolsFollow(acc, ds)
    && acc.usage == u
  }

  lemma ContentTracked(acc: Acc, ps: seq<string>, ds: seq<ToolDelta>, u: Option<int>, thoughts: string, text: string)
    requires Tracks(acc, ps, ds, u, thoughts)
    ensures Tracks(AbsorbContent(acc, text), ps + (if text != "" then [text] else []), ds, u, thoughts + FoundIn(acc.split, text))
  {
    hide FeedAll, FeedOnce, ContentText, ReasoningText, ToolEvents, Assembled, OfIndex;
    if text == "" {
      assert ps + [] == ps && thoughts + "" == thoughts;
      return;
    }
    var run := FeedOnce(DEFAULT_TAGS, acc.split, text);
    FeedAllSnoc(DEFAULT_TAGS, START, ps, text);
    var fed := acc.(split := run.st);
    ReasoningSent(fed, run.out.reasoning);
    ContentSent(fed.SendReasoning(run.out.reasoning), run.out.visible);
  }

  lemma ReasoningTracked(acc: Acc, ps: seq<string>, ds: seq<ToolDelta>, u: Option<int>, thoughts: string, text: string)
    requires Tracks(acc, ps, ds, u, thoughts)
    ensures Tracks(acc.SendReasoning(text), ps, ds, u, thoughts + text)
  {
    hide FeedAll, ContentText, ReasoningText, ToolEvents, Assembled, OfIndex;
    ReasoningSent(acc, text);
    Unextended(acc.events, text);
  }

  lemma ChunkTracked(acc: Acc, cs: seq<Chunk>, c: Chunk)
    requires Tracks(acc, Pieces(cs), Fragments(cs), LastUsage(cs), Thoughts(cs))
    ensures var all := cs + [c];
            Tracks(Absorb(acc, c), Pieces(all), Fragments(all), LastUsage(all), Thoughts(all))
  {
    hide Tracks, FeedAll, ToolsFollow, AbsorbContent, AbsorbTools, Assembled, OfIndex, FoundIn;
    var all := cs + [c];
    assert all[..|cs|] == cs;
    var u := LastUsage(all);
    var counted := if c.usage.Some? then acc.(usage := c.usage) else acc;
    UsageTracked(acc, cs, c);
    if c.hasChoice {
      ReasoningTracked(counted, Pieces(cs), Fragments(cs), u, Thoughts(cs), c.reasoning);
      var told := counted.SendReasoning(c.reasoning);
      ContentTracked(told, Pieces(cs), Fragments(cs), u, Thoughts(cs) + c.reasoning, c.content);
      TrackedSplit(acc, cs);
      assert Thoughts(all) == Thoughts(cs) + c.reasoning + FoundIn(acc.split, c.content);
      ToolsTracked(AbsorbContent(told, c.content), Pieces(all), Fragments(cs), u, Thoughts(all), c.tools);
    } else {
      assert Pieces(cs) + [] == Pieces(cs) && Fragments(cs) + [] == Fragments(cs);
      assert Thoughts(cs) + "" == Thoughts(cs);
    }
  }

  lemma TrackedSplit(acc: Acc, cs: seq<Chunk>)
    requires Tracks(acc, Pieces(cs), Fragments(cs), LastUsage(cs), Thoughts(cs))
    ensures acc.split == FeedAll(DEFAULT_TAGS, START, Pieces(cs)).st
  {
  }

  lemma UsageTracked(acc: Acc, cs: seq<Chunk>, c: Chunk)
    requires Tracks(acc, Pieces(cs), Fragments(cs), LastUsage(cs), Thoughts(cs))
    ensures Tracks(if c.usage.Some? then acc.(usage := c.usage) else acc,
                   Pieces(cs), Fragments(cs), LastUsage(cs + [c]), Thoughts(cs))
  {
    assert (cs + [c])[..|cs|] == cs;
  }

  lemma ToolsTracked(acc: Acc, ps: seq<string>, ds: seq<ToolDelta>, u: Option<int>, thoughts: string, more: seq<ToolDelta>)
    requires Tracks(acc, ps, ds, u, thoughts)
    ensures Tracks(AbsorbTools(acc, more), ps, ds + more, u, thoughts)
  {
    hide FeedAll, ToolsFollow;
    ToolsAbsorbed(acc, ds, more);
  }

  lemma NothingTracked()
    ensures Tracks(FRESH, Pieces([]), Fragments([]), LastUsage([]), Thoughts([]))
  {
  }

  // After any chunks: the content is the visible part of the pieces fed to
  // one splitter, and every tool slot is assembled from its own fragments.
  lemma {:induction false} ChunksTracked(cs: seq<Chunk>)
    ensures Tracks(AbsorbAll(FRESH, cs), Pieces(cs), Fragments(cs), LastUsage(cs), Thoughts(cs))
    decreases |cs|
  {
    hide Absorb, Tracks, Pieces, Fragments, LastUsage, Thoughts;
    if cs == [] {
      NothingTracked();
    } else {
      var n := |cs| - 1;
      ChunksTracked(cs[..n]);
      ChunkTracked(AbsorbAll(FRESH, cs[..n]), cs[..n], cs[n]);
      assert cs[..n] + [cs[n]] == cs;
    }
  }

  // Without reasoning in a field of its own, it is what one splitter finds.
  lemma {:induction false} ThoughtsAre(cs: seq<Chunk>)
    ensures var found := FeedAll(DEFAULT_TAGS, START, Pieces(cs)).out.reasoning;
            && |Thoughts(cs)| == |SeparateReasoning(cs)| + |found|
            && (SeparateReasoning(cs) == "" ==> Thoughts(cs) == found)
    decreases |cs|
  {
    hide FeedOnce;
    if cs != [] {
      var front, c := cs[..|cs| - 1], cs[|cs| - 1];
      ThoughtsAre(front);
      FeedAllSnoc(DEFAULT_TAGS, START, Pieces(front), c.content);
      assert Pieces(front) + [] == Pieces(front);
    }
  }

  // ----- streaming equals non-streaming -----

  // `complete` strips only when the content mentions "<think".
  function CompleteContent(content: string): string {
    if Find(content, "<think") != -1 then ReasoningSplit.Received(DEFAULT_TAGS, [content]).visible else content
  }

  method CompleteTail(content: Option<string>) returns (r: Option<string>)
    ensures r == if content.Some? then Some(CompleteContent(content.value)) else None
  {
    if content.Some? && Find(content.value, "<think") != -1 {
      var visible, reasoning := StripThinkBlocks(content.value);
      return Some(visible);
    }
    return content;
  }

  lemma CompleteIsStrip(content: string)
    ensures CompleteContent(content) == ReasoningSplit.Received(DEFAULT_TAGS, [content]).visible
  {
    hide ReasoningSplit.Received, Find;
    if Find(content, "<think") == -1 {
      FindIsFirst(content, "<think");
      forall i: nat | Occurs(content, DEFAULT_OPEN, i)
        ensures Occurs(content, "<think", i)
      {
        assert content[i..i + 6] == content[i..i + 7][..6];
      }
      NoTagAllVisible(DEFAULT_TAGS, content);
    }
  }

  lemma FinishSends(acc: Acc)
    requires NoDone(acc.events) && ContentText(acc.events) == acc.content
    ensures var tail := FlushOut(acc.split);
            var es := Finish(acc).events;
            && es != []
            && var n := |es| - 1;
            && es[n].Done? && NoDone(es[..n])
            && es[n].content == acc.content + tail.visible == ContentText(es)
            && ReasoningText(es) == ReasoningText(acc.events) + tail.reasoning
            && ToolEvents(es) == ToolEvents(acc.events)
  {
    hide ContentText, ReasoningText, ToolEvents, FlushOut;
    var tail := FlushOut(acc.split);
    ReasoningSent(acc, tail.reasoning);
    var told := acc.SendReasoning(tail.reasoning);
    ContentSent(told, tail.visible);
    var flushed := told.SendContent(tail.visible);
    EventsSnoc(flushed.events, Finish(acc).events[|flushed.events|]);
    Unextended(flushed.events, "");
  }

  lemma CutsOfWhole(ps: seq<string>, whole: string)
    requires whole == Concat(ps)
    ensures ReasoningSplit.Received(DEFAULT_TAGS, ps) == ReasoningSplit.Received(DEFAULT_TAGS, [whole])
  {
    assert [whole][1..] == [] && whole + "" == whole;
    CutsDoNotMatter(DEFAULT_TAGS, ps, [whole]);
  }

  // The loop over the lines stops at this line.
  predicate Stops(t: Tick) {
    t.aborted || t.line.DoneMark?
  }

  lemma {:induction false} StopIsFirst(ticks: seq<Tick>, from: nat)
    requires from <= |ticks|
    ensures var r := StopAt(ticks, from);
            (r < |ticks| ==> Stops(ticks[r])) && forall k :: from <= k < r ==> !Stops(ticks[k])
    decreases |ticks| - from
  {
    if from < |ticks| && !Stops(ticks[from]) {
      StopIsFirst(ticks, from + 1);
    }
  }

  lemma {:induction false} SomeChunk(ticks: seq<Tick>)
    ensures ChunksOf(ticks) != [] <==> exists k :: 0 <= k < |ticks| && ticks[k].line.Data?
    decreases |ticks|
  {
    if ticks != [] {
      var n := |ticks| - 1;
      SomeChunk(ticks[..n]);
      assert ticks == ticks[..n] + [ticks[n]];
    }
  }

  // A call succeeds exactly when it is not rejected, some data line comes
  // before the first line at which it stops, and the connection lasts up to
  // that line.
  lemma CallSucceedsExactly(a: Attempt)
    ensures Once(a).failure.None? <==>
            && a.rejected.None?
            && (a.dropped.Some? ==> exists k :: 0 <= k < |a.ticks| && Stops(a.ticks[k]))
            && exists k :: 0 <= k < |a.ticks| && a.ticks[k].line.Data? && forall j :: 0 <= j <= k ==> !Stops(a.ticks[j])
  {
    hide Absorb, Finish, ChunksOf, StopAt, Stops, AbsorbAll;
    var stop := StopAt(a.ticks, 0);
    var read := a.ticks[..stop];
    StopIsFirst(a.ticks, 0);
    SomeChunk(read);
    assert forall k :: 0 <= k < stop ==> read[k] == a.ticks[k];
  }

  // ----- the lines of a call -----

  // The loop reads the first `n` lines: none of them stops it, and it stops at
  // the next one or at the end.
  ghost predicate IsReadUpTo(ticks: seq<Tick>, n: nat) {
    && n <= |ticks|
    && (forall k :: 0 <= k < n ==> !Stops(ticks[k]))
    && (n < |ticks| ==> Stops(ticks[n]))
  }

  // The data lines among the first `n`, each once and in order, stand at the
  // places `at`.
  ghost predicate AreDataLines(ticks: seq<Tick>, n: nat, cs: seq<Chunk>, at: seq<nat>) {
    && n <= |ticks| && |at| == |cs|
    && (forall i :: 0 <= i < |at| ==> at[i] < n && ticks[at[i]].line == Data(cs[i]))
    && (forall i, j :: 0 <= i < j < |at| ==> at[i] < at[j])
    && forall k :: 0 <= k < n && ticks[k].line.Data? ==> k in at
  }

  // The chunks are those of the data lines before the first abort or end mark.
  ghost predicate Delivers(a: Attempt, cs: seq<Chunk>) {
    exists n, at :: IsReadUpTo(a.ticks, n) && AreDataLines(a.ticks, n, cs, at)
  }

  lemma {:induction false} DataLinesAre(ticks: seq<Tick>) returns (at: seq<nat>)
    ensures AreDataLines(ticks, |ticks|, ChunksOf(ticks), at)
    decreases |ticks|
  {
    hide AreDataLines;
    if ticks == [] {
      at := [];
      NoDataLines();
    } else {
      var n := |ticks| - 1;
      var before := DataLinesAre(ticks[..n]);
      at := if ticks[n].line.Data? then before + [n] else before;
      DataLinesStep(ticks, n, ChunksOf(ticks[..n]), before);
      assert ChunksOf(ticks[..n]) + [] == ChunksOf(ticks[..n]);
    }
  }

  lemma NoDataLines()
    ensures AreDataLines([], 0, [], [])
  {
  }

  lemma DataLinesStep(ticks: seq<Tick>, n: nat, cs: seq<Chunk>, at: seq<nat>)
    requires |ticks| == n + 1 && AreDataLines(ticks[..n], n, cs, at)
    ensures ticks[n].line.Data? ==> AreDataLines(ticks, n + 1, cs + [ticks[n].line.chunk], at + [n])
    ensures !ticks[n].line.Data? ==> AreDataLines(ticks, n + 1, cs, at)
  {
    assert forall k :: 0 <= k < n ==> ticks[..n][k] == ticks[k];
    var longer := at + [n];
    assert longer[|at|] == n;
    assert forall k :: k in at ==> k in longer;
  }

  lemma ReceivedIsDelivered(a: Attempt)
    ensures Delivers(a, Received(a))
  {
    hide ChunksOf;
    var n := StopAt(a.ticks, 0);
    StopIsFirst(a.ticks, 0);
    var at := DataLinesAre(a.ticks[..n]);
    assert forall k :: 0 <= k < n ==> a.ticks[..n][k] == a.ticks[k];
    assert AreDataLines(a.ticks, n, Received(a), at);
    assert IsReadUpTo(a.ticks, n);
  }

  lemma {:induction false} SamePlaces(ticks: seq<Tick>, n: nat, cs: seq<Chunk>, at: seq<nat>, cs': seq<Chunk>, at': seq<nat>, k: nat)
    requires AreDataLines(ticks, n, cs, at) && AreDataLines(ticks, n, cs', at')
    requires k <= |at| && k <= |at'|
    ensures at[..k] == at'[..k]
    decreases k
  {
    if k > 0 {
      SamePlaces(ticks, n, cs, at, cs', at', k - 1);
      NotBefore(ticks, n, cs, at, cs', at', k - 1);
      NotBefore(ticks, n, cs', at', cs, at, k - 1);
      assert at[..k] == at[..k - 1] + [at[k - 1]];
      assert at'[..k] == at'[..k - 1] + [at'[k - 1]];
    }
  }

  lemma NotBefore(ticks: seq<Tick>, n: nat, cs: seq<Chunk>, at: seq<nat>, cs': seq<Chunk>, at': seq<nat>, k: nat)
    requires AreDataLines(ticks, n, cs, at) && AreDataLines(ticks, n, cs', at')
    requires k < |at| && k < |at'| && at[..k] == at'[..k]
    ensures at[k] <= at'[k]
  {
    assert at'[k] in at;
    var i :| 0 <= i < |at| && at[i] == at'[k];
    assert forall l :: 0 <= l < k ==> at[l] == at[..k][l] && at'[l] == at'[..k][l];
  }

  lemma EarlierPlaces(at: seq<nat>, at': seq<nat>, k: nat)
    requires k == |at| < |at'| && at[..k] == at'[..k]
    requires forall i, j :: 0 <= i < j < |at'| ==> at'[i] < at'[j]
    ensures at'[k] !in at
  {
    assert forall l :: 0 <= l < k ==> at[l] == at[..k][l] && at'[l] == at'[..k][l];
  }

  lemma NoFewerPlaces(ticks: seq<Tick>, n: nat, cs: seq<Chunk>, at: seq<nat>, cs': seq<Chunk>, at': seq<nat>)
    requires AreDataLines(ticks, n, cs, at) && AreDataLines(ticks, n, cs', at')
    ensures |at| >= |at'|
  {
    if |at| < |at'| {
      var k := |at|;
      SamePlaces(ticks, n, cs, at, cs', at', k);
      EarlierPlaces(at, at', k);
      assert false;
    }
  }

  // There is only one such list of chunks.
  lemma DeliveredIsReceived(a: Attempt, cs: seq<Chunk>)
    requires Delivers(a, cs)
    ensures cs == Received(a)
  {
    hide ChunksOf, Received;
    ReceivedIsDelivered(a);
    var n, at :| IsReadUpTo(a.ticks, n) && AreDataLines(a.ticks, n, cs, at);
    var n', at' :| IsReadUpTo(a.ticks, n') && AreDataLines(a.ticks, n', Received(a), at');
    assert n == n';
    NoFewerPlaces(a.ticks, n, cs, at, Received(a), at');
    NoFewerPlaces(a.ticks, n, Received(a), at', cs, at);
    SamePlaces(a.ticks, n, cs, at, Received(a), at', |at|);
    assert at[..|at|] == at && at'[..|at|] == at';
  }

  // ----- what chunks carry -----

  function Contents(cs: seq<Chunk>): seq<string> {
    seq(|cs|, i requires 0 <= i < |cs| => if cs[i].hasChoice then cs[i].content else "")
  }

  function Reasonings(cs: seq<Chunk>): seq<string> {
    seq(|cs|, i requires 0 <= i < |cs| => if cs[i].hasChoice then cs[i].reasoning else "")
  }

  // The tool fragments of the chunks, from the first chunk on.
  function AllTools(cs: seq<Chunk>): seq<ToolDelta> {
    if cs == [] then [] else (if cs[0].hasChoice then cs[0].tools else []) + AllTools(cs[1..])
  }

  // The last usage that is given.
  ghost predicate IsLastUsage(cs: seq<Chunk>, u: Option<int>) {
    || (u.None? && forall i :: 0 <= i < |cs| ==> cs[i].usage.None?)
    || (u.Some? && exists i :: 0 <= i < |cs| && cs[i].usage == u && forall j :: i < j < |cs| ==> cs[j].usage.None?)
  }

  lemma ConcatSnoc(parts: seq<string>, t: string)
    ensures Concat(parts + [t]) == Concat(parts) + t
  {
    ConcatAppend(parts, [t]);
    assert [t][1..] == [];
    assert t + "" == t;
  }

  lemma {:induction false} AllToolsSnoc(cs: seq<Chunk>, c: Chunk)
    ensures AllTools(cs + [c]) == AllTools(cs) + (if c.hasChoice then c.tools else [])
    decreases |cs|
  {
    var all := cs + [c];
    if cs == [] {
      assert all[1..] == [];
    } else {
      assert all[1..] == cs[1..] + [c];
      AllToolsSnoc(cs[1..], c);
      assert all[0] == cs[0];
    }
  }

  lemma LastUsageStep(cs: seq<Chunk>, n: nat, u: Option<int>)
    requires |cs| == n + 1 && IsLastUsage(cs[..n], u)
    ensures IsLastUsage(cs, if cs[n].usage.Some? then cs[n].usage else u)
  {
    if cs[n].usage.None? && u.Some? {
      var i :| 0 <= i < n && cs[..n][i].usage == u && forall j :: i < j < n ==> cs[..n][j].usage.None?;
      assert cs[i].usage == u && forall j :: i < j < n ==> cs[j] == cs[..n][j];
    } else {
      assert forall j :: 0 <= j < n ==> cs[j] == cs[..n][j];
    }
  }

  // What a call collects is what its chunks carry.
  lemma {:induction false} ChunksCarry(cs: seq<Chunk>)
    ensures Concat(Pieces(cs)) == Concat(Contents(cs))
    ensures SeparateReasoning(cs) == Concat(Reasonings(cs))
    ensures Fragments(cs) == AllTools(cs)
    ensures IsLastUsage(cs, LastUsage(cs))
    decreases |cs|
  {
    hide Concat, AllTools, IsLastUsage;
    if cs == [] {
      NothingCarried();
      assert Contents(cs) == [] && Reasonings(cs) == [];
    } else {
      var n := |cs| - 1;
      var c := cs[n];
      ChunksCarry(cs[..n]);
      assert cs[..n] + [c] == cs;
      assert Contents(cs) == Contents(cs[..n]) + [if c.hasChoice then c.content else ""];
      assert Reasonings(cs) == Reasonings(cs[..n]) + [if c.hasChoice then c.reasoning else ""];
      ConcatSnoc(Contents(cs[..n]), if c.hasChoice then c.content else "");
      ConcatSnoc(Reasonings(cs[..n]), if c.hasChoice then c.reasoning else "");
      ConcatSnoc(Pieces(cs[..n]), c.content);
      AllToolsSnoc(cs[..n], c);
      LastUsageStep(cs, n, LastUsage(cs[..n]));
      PiecesStep(cs, n);
    }
  }

  lemma NothingCarried()
    ensures Concat([]) == "" && AllTools([]) == [] && IsLastUsage([], None)
  {
  }

  lemma PiecesStep(cs: seq<Chunk>, n: nat)
    requires |cs| == n + 1
    ensures Concat(Pieces(cs)) ==
            if cs[n].hasChoice then Concat(Pieces(cs[..n]) + [cs[n].content]) else Concat(Pieces(cs[..n])) + ""
  {
    hide Concat;
    assert Pieces(cs[..n]) + [] == Pieces(cs[..n]);
    ConcatSnoc(Pieces(cs[..n]), cs[n].content);
  }

  // ----- how a call ends and what it sends -----

  // Some data line comes before any line that stops the loop.
  ghost predicate HasEvent(a: Attempt) {
    exists k :: 0 <= k < |a.ticks| && a.ticks[k].line.Data? && forall j :: 0 <= j <= k ==> !Stops(a.ticks[j])
  }

  ghost predicate IsDropped(a: Attempt) {
    a.dropped.Some? && forall k :: 0 <= k < |a.ticks| ==> !Stops(a.ticks[k])
  }

  // Which failure is raised, if any: the rejected status, the dropped
  // connection, or the response without an event.
  lemma FailureIs(a: Attempt)
    ensures Once(a).failure ==
            if a.rejected.Some? then a.rejected
            else if IsDropped(a) then a.dropped
            else if !HasEvent(a) then Some(EMPTY_RESPONSE)
            else None
  {
    hide Absorb, Finish, ChunksOf, StopAt, Stops, AbsorbAll;
    var stop := StopAt(a.ticks, 0);
    var read := a.ticks[..stop];
    StopIsFirst(a.ticks, 0);
    SomeChunk(read);
    assert forall k :: 0 <= k < stop ==> read[k] == a.ticks[k];
    assert ChunksOf(read) != [] <==> HasEvent(a);
    assert stop == |a.ticks| <==> forall k :: 0 <= k < |a.ticks| ==> !Stops(a.ticks[k]);
  }

  // The text, reasoning and tool fragments that were sent are those of the
  // chunks, as far as the splitter has let them through.
  ghost predicate SendsPrefix(es: seq<Event>, cs: seq<Chunk>) {
    var out := FeedAll(DEFAULT_TAGS, START, Pieces(cs)).out;
    && NoDone(es)
    && ContentText(es) == out.visible
    && ReasoningText(es) == Thoughts(cs)
    && Announces(ToolEvents(es), AllTools(cs))
  }

  // Each fragment is announced with what its slot is then.
  ghost predicate Announces(sent: seq<Event>, ds: seq<ToolDelta>) {
    && |sent| == |ds|
    && forall i :: 0 <= i < |ds| ==>
         var slot := Assembled(ds[..i + 1], ds[i].index);
         sent[i] == ToolCallDelta(ds[i].index, slot.id, slot.name, slot.arguments)
  }

  // One slot for each index that occurs, in index order.
  ghost predicate SlotsAre(calls: Option<seq<Slot>>, ds: seq<ToolDelta>, keys: seq<int>) {
    && (forall i, j :: 0 <= i < j < |keys| ==> keys[i] < keys[j])
    && (forall k :: k in keys <==> exists d :: d in ds && d.index == k)
    && (calls.None? <==> keys == [])
    && (calls.Some? ==>
          && |calls.value| == |keys|
          && forall i :: 0 <= i < |keys| ==> calls.value[i] == Assembled(ds, keys[i]))
  }

  // A completed call, for any cutting of the text into content pieces: the
  // final message holds the concatenated content deltas, which is what the
  // non-streamed call leaves of the whole text that the data lines carry; the
  // reasoning deltas hold what the lines carry in their own field and what the
  // splitter finds; the usage is the last one.
  lemma StreamingEqualsComplete(a: Attempt, cs: seq<Chunk>)
    requires Once(a).failure.None? && Delivers(a, cs)
    ensures var es := Once(a).events;
            && es != []
            && var n, whole := |es| - 1, Concat(Contents(cs));
            && es[n].Done? && NoDone(es[..n])
            && es[n].content == ContentText(es) == CompleteContent(whole)
            && ReasoningText(es) == Thoughts(cs) + FlushOut(FeedAll(DEFAULT_TAGS, START, Pieces(cs)).st).reasoning
            && (Concat(Reasonings(cs)) == "" ==> ReasoningText(es) == ReasoningSplit.Received(DEFAULT_TAGS, [whole]).reasoning)
            && IsLastUsage(cs, es[n].usage)
  {
    var whole := Concat(Pieces(cs));
    hide Received, Delivers, Concat, CompleteContent, Find, ContentText, ReasoningText, FeedAll, IsLastUsage, Thoughts,
         Pieces, SeparateReasoning, Fragments, LastUsage, ToolsFollow, ToolEvents, Absorb;
    DeliveredIsReceived(a, cs);
    ChunksTracked(cs);
    ChunksCarry(cs);
    ThoughtsAre(cs);
    var acc := AbsorbAll(FRESH, cs);
    FinishSends(acc);
    CutsOfWhole(Pieces(cs), whole);
    CompleteIsStrip(whole);
  }

  // A rejected call sends nothing. Any other failed call has sent what its
  // chunks carry, and no final message.
  lemma FailedCallSendsPrefix(a: Attempt, cs: seq<Chunk>)
    requires Once(a).failure.Some? && Delivers(a, cs)
    ensures a.rejected.Some? ==> Once(a).events == []
    ensures a.rejected.None? ==> SendsPrefix(Once(a).events, cs)
  {
    hide ContentText, ReasoningText, FeedAll, Received, ToolEvents, Assembled, Delivers, Concat;
    DeliveredIsReceived(a, cs);
    ChunksTracked(cs);
    ChunksCarry(cs);
  }

  lemma FailedSendsNoDone(a: Attempt)
    requires Once(a).failure.Some?
    ensures NoDone(Once(a).events)
  {
    hide Received, Delivers, Once, SendsPrefix;
    ReceivedIsDelivered(a);
    FailedCallSendsPrefix(a, Received(a));
    PrefixHasNoDone(Once(a).events, Received(a));
  }

  lemma PrefixHasNoDone(es: seq<Event>, cs: seq<Chunk>)
    ensures SendsPrefix(es, cs) || es == [] ==> NoDone(es)
  {
    hide FeedAll, Concat, Assembled;
  }

  // No visible text, no reasoning and no tool fragment came of the call.
  ghost predicate SendsNothing(a: Attempt) {
    || a.rejected.Some?
    || forall cs :: Delivers(a, cs) ==>
         && FeedAll(DEFAULT_TAGS, START, Pieces(cs)).out == NOTHING
         && Concat(Reasonings(cs)) == "" && AllTools(cs) == []
  }

  ghost predicate NoEmptyDelta(es: seq<Event>) {
    forall e :: e in es ==> e != ContentDelta("") && e != ReasoningDelta("")
  }

  lemma {:induction false} ToolsNotEmpty(acc: Acc, ds: seq<ToolDelta>)
    requires NoEmptyDelta(acc.events)
    ensures NoEmptyDelta(AbsorbTools(acc, ds).events)
    decreases |ds|
  {
    if ds != [] {
      ToolsNotEmpty(acc, ds[..|ds| - 1]);
    }
  }

  lemma AbsorbsNotEmpty(acc: Acc, c: Chunk)
    requires NoEmptyDelta(acc.events)
    ensures NoEmptyDelta(Absorb(acc, c).events)
  {
    hide FeedOnce, AbsorbTools;
    var counted := if c.usage.Some? then acc.(usage := c.usage) else acc;
    ToolsNotEmpty(AbsorbContent(counted.SendReasoning(c.reasoning), c.content), c.tools);
  }

  // Empty texts are not sent.
  lemma {:induction false} NothingEmptyIsSent(cs: seq<Chunk>)
    ensures NoEmptyDelta(AbsorbAll(FRESH, cs).events)
    decreases |cs|
  {
    hide Absorb;
    if cs != [] {
      NothingEmptyIsSent(cs[..|cs| - 1]);
      AbsorbsNotEmpty(AbsorbAll(FRESH, cs[..|cs| - 1]), cs[|cs| - 1]);
    }
  }

  lemma SilentEvents(es: seq<Event>)
    requires NoDone(es) && NoEmptyDelta(es)
    ensures es == [] <==> ContentText(es) == "" && ReasoningText(es) == "" && ToolEvents(es) == []
  {
    if es != [] {
      assert es[|es| - 1] in es;
    }
  }

  lemma NothingAtAll()
    ensures ContentText([]) == "" && ReasoningText([]) == "" && ToolEvents([]) == []
  {
  }

  lemma SilentCall(a: Attempt)
    requires Once(a).failure.Some?
    ensures Once(a).events == [] <==> SendsNothing(a)
  {
    hide FeedAll, Received, Delivers, Concat, Absorb, AbsorbAll, Assembled, ContentText, ReasoningText, ToolEvents, Thoughts;
    if a.rejected.None? {
      var cs := Received(a);
      ReceivedIsDelivered(a);
      FailedCallSendsPrefix(a, cs);
      ThoughtsAre(cs);
      ChunksCarry(cs);
      NothingEmptyIsSent(cs);
      SilentEvents(Once(a).events);
      NothingAtAll();
      forall cs' | Delivers(a, cs')
        ensures cs' == cs
      {
        DeliveredIsReceived(a, cs');
      }
    }
  }

  // Each tool slot of the final message holds its own fragments in arrival
  // order, whatever the interleaving across indexes; the slots are in index
  // order, one for each index that occurred.
  lemma FinalToolSlots(a: Attempt, cs: seq<Chunk>) returns (keys: seq<int>)
    requires Once(a).failure.None? && Delivers(a, cs)
    ensures var es := Once(a).events;
            && es != [] && es[|es| - 1].Done?
            && SlotsAre(es[|es| - 1].toolCalls, AllTools(cs), keys)
            && Announces(ToolEvents(es), AllTools(cs))
  {
    hide Received, Delivers, ContentText, ReasoningText, FeedAll, ToolEvents, SortedKeys, Assembled, FinalCalls, Concat, AllTools,
         Thoughts, SlotsAre, Fragments;
    DeliveredIsReceived(a, cs);
    ChunksTracked(cs);
    ChunksCarry(cs);
    var acc := AbsorbAll(FRESH, cs);
    keys := SlotsOf(acc, Fragments(cs));
    FinishSends(acc);
  }

  lemma SlotsOf(acc: Acc, ds: seq<ToolDelta>) returns (keys: seq<int>)
    requires ToolsFollow(acc, ds)
    ensures var calls := FinalCalls(acc.tools);
            SlotsAre(if calls == [] then None else Some(calls), ds, keys)
  {
    hide Assembled, FinalCalls, SortedKeys, ToolsFollow;
    CallsAreSlots(acc, ds);
    keys := SortedKeys(set d | d in ds :: d.index);
    SortedKeysSorted(set d | d in ds :: d.index);
  }

  lemma CallsAreSlots(acc: Acc, ds: seq<ToolDelta>)
    requires ToolsFollow(acc, ds)
    ensures var keys := SortedKeys(set d | d in ds :: d.index);
            && (forall i, j :: 0 <= i < j < |keys| ==> keys[i] < keys[j])
            && |FinalCalls(acc.tools)| == |keys|
            && forall i :: 0 <= i < |keys| ==> FinalCalls(acc.tools)[i] == Assembled(ds, keys[i])
  {
    hide SortedKeys, Assembled, ToolEvents, SlotAt;
    forall k
      ensures k in acc.tools <==> exists d :: d in ds && d.index == k
    {
      OfIndexNonEmpty(ds, k);
    }
    assert acc.tools.Keys == set d | d in ds :: d.index;
    SortedKeysSorted(acc.tools.Keys);
  }

  lemma {:induction false} OfIndexNonEmpty(ds: seq<ToolDelta>, k: int)
    ensures OfIndex(ds, k) != [] <==> exists d :: d in ds && d.index == k
    decreases |ds|
  {
    if ds != [] {
      var n := |ds| - 1;
      OfIndexNonEmpty(ds[..n], k);
      assert ds == ds[..n] + [ds[n]];
    }
  }

  // ----- the order of the events, and what a slot holds -----

  function Told(e: Event, text: string): seq<Event> {
    if text == "" then [] else [e]
  }

  // A chunk tells its own reasoning, then the reasoning and then the visible
  // text that the splitter finds in its content, then one event a fragment.
  lemma ChunkIsTold(acc: Acc, c: Chunk) returns (calls: seq<Event>)
    requires c.hasChoice
    ensures var out := if c.content == "" then NOTHING else FeedOnce(DEFAULT_TAGS, acc.split, c.content).out;
            Absorb(acc, c).events == acc.events
              + Told(ReasoningDelta(c.reasoning), c.reasoning)
              + Told(ReasoningDelta(out.reasoning), out.reasoning) + Told(ContentDelta(out.visible), out.visible)
              + calls
    ensures |calls| == |c.tools| && forall i :: 0 <= i < |calls| ==> calls[i].ToolCallDelta? && calls[i].index == c.tools[i].index
  {
    hide FeedOnce, AbsorbTools;
    var counted := if c.usage.Some? then acc.(usage := c.usage) else acc;
    calls := ToolsTold(AbsorbContent(counted.SendReasoning(c.reasoning), c.content), c.tools);
  }

  lemma {:induction false} ToolsTold(acc: Acc, ds: seq<ToolDelta>) returns (calls: seq<Event>)
    ensures AbsorbTools(acc, ds).events == acc.events + calls
    ensures |calls| == |ds| && forall i :: 0 <= i < |calls| ==> calls[i].ToolCallDelta? && calls[i].index == ds[i].index
    decreases |ds|
  {
    calls := [];
    if ds != [] {
      var n := |ds| - 1;
      var before := ToolsTold(acc, ds[..n]);
      calls := before + AbsorbTools(acc, ds).events[|acc.events| + n..];
    }
  }

  // At the end the rest of the reasoning is told before the rest of the text,
  // and the final message comes last.
  lemma TailIsTold(acc: Acc)
    ensures var tail := FlushOut(acc.split);
            exists d: Event :: d.Done? && Finish(acc).events == acc.events
              + Told(ReasoningDelta(tail.reasoning), tail.reasoning) + Told(ContentDelta(tail.visible), tail.visible) + [d]
  {
    hide FinalCalls, FlushOut;
    var es := Finish(acc).events;
    assert es[|es| - 1].Done?;
  }

  // The fragments of an index, each once and in order, stand at the places `at`.
  ghost predicate AreFragmentsOf(ds: seq<ToolDelta>, k: int, own: seq<ToolDelta>, at: seq<nat>) {
    && |at| == |own|
    && (forall i :: 0 <= i < |at| ==> at[i] < |ds| && own[i] == ds[at[i]] && ds[at[i]].index == k)
    && (forall i, j :: 0 <= i < j < |at| ==> at[i] < at[j])
    && forall p :: 0 <= p < |ds| && ds[p].index == k ==> p in at
  }

  ghost predicate IsLastGiven(entries: seq<string>, r: string) {
    || (r == "" && forall i :: 0 <= i < |entries| ==> entries[i] == "")
    || exists i :: 0 <= i < |entries| && entries[i] == r != "" && forall j :: i < j < |entries| ==> entries[j] == ""
  }

  function Ids(ds: seq<ToolDelta>): seq<string> {
    seq(|ds|, i requires 0 <= i < |ds| => ds[i].id)
  }

  function NameParts(ds: seq<ToolDelta>): seq<string> {
    seq(|ds|, i requires 0 <= i < |ds| => ds[i].name)
  }

  function ArgumentParts(ds: seq<ToolDelta>): seq<string> {
    seq(|ds|, i requires 0 <= i < |ds| => ds[i].arguments)
  }

  lemma LastGivenAt(entries: seq<string>, i: nat, r: string)
    requires i < |entries| && entries[i] == r != "" && forall j :: i < j < |entries| ==> entries[j] == ""
    ensures IsLastGiven(entries, r)
  {
  }

  lemma NoneGivenStep(entries: seq<string>, n: nat)
    requires |entries| == n + 1 && entries[n] == "" && forall i :: 0 <= i < n ==> entries[..n][i] == ""
    ensures IsLastGiven(entries, "")
  {
    assert forall i :: 0 <= i < n ==> entries[i] == entries[..n][i];
  }

  lemma LastGivenStep(entries: seq<string>, n: nat, r: string)
    requires |entries| == n + 1 && IsLastGiven(entries[..n], r)
    ensures IsLastGiven(entries, if entries[n] != "" then entries[n] else r)
  {
    hide IsLastGiven;
    if entries[n] != "" {
      LastGivenAt(entries, n, entries[n]);
    } else {
      LastGivenStays(entries, n, r);
    }
  }

  lemma LastGivenStays(entries: seq<string>, n: nat, r: string)
    requires |entries| == n + 1 && IsLastGiven(entries[..n], r) && entries[n] == ""
    ensures IsLastGiven(entries, r)
  {
    if r == "" {
      NoneGivenStep(entries, n);
    } else {
      var i :| 0 <= i < n && entries[..n][i] == r && forall j :: i < j < n ==> entries[..n][j] == "";
      assert forall j :: i < j < n ==> entries[j] == entries[..n][j];
      LastGivenAt(entries, i, r);
    }
  }

  lemma {:induction false} PartsCollected(ds: seq<ToolDelta>)
    ensures IsLastGiven(Ids(ds), LastId(ds)) && IsLastGiven(NameParts(ds), LastName(ds))
    ensures Arguments(ds) == Concat(ArgumentParts(ds)) && Names(ds) == Concat(NameParts(ds))
    decreases |ds|
  {
    hide Concat, IsLastGiven;
    if ds == [] {
      NoParts();
      assert Ids(ds) == [] && NameParts(ds) == [] && ArgumentParts(ds) == [];
    } else {
      var n := |ds| - 1;
      PartsCollected(ds[..n]);
      assert Ids(ds)[..n] == Ids(ds[..n]) && NameParts(ds)[..n] == NameParts(ds[..n]);
      LastGivenStep(Ids(ds), n, LastId(ds[..n]));
      LastGivenStep(NameParts(ds), n, LastName(ds[..n]));
      assert ArgumentParts(ds) == ArgumentParts(ds[..n]) + [ds[n].arguments];
      assert NameParts(ds) == NameParts(ds[..n]) + [ds[n].name];
      ConcatSnoc(ArgumentParts(ds[..n]), ds[n].arguments);
      ConcatSnoc(NameParts(ds[..n]), ds[n].name);
    }
  }

  lemma NoParts()
    ensures IsLastGiven([], "") && Concat([]) == ""
  {
  }

  // A streamed slot holds the last id and the last name that came, and all the
  // arguments, of the fragments of its index.
  lemma SlotHolds(ds: seq<ToolDelta>, k: int) returns (own: seq<ToolDelta>, at: seq<nat>)
    ensures AreFragmentsOf(ds, k, own, at)
    ensures var slot := Assembled(ds, k);
            IsLastGiven(Ids(own), slot.id) && IsLastGiven(NameParts(own), slot.name) && slot.arguments == Concat(ArgumentParts(own))
  {
    own := OfIndex(ds, k);
    at := FragmentsOf(ds, k);
    PartsCollected(own);
  }

  lemma {:induction false} FragmentsOf(ds: seq<ToolDelta>, k: int) returns (at: seq<nat>)
    ensures AreFragmentsOf(ds, k, OfIndex(ds, k), at)
    decreases |ds|
  {
    hide AreFragmentsOf;
    if ds == [] {
      at := [];
      NoFragmentsOf(k);
    } else {
      var n := |ds| - 1;
      var before := FragmentsOf(ds[..n], k);
      at := if ds[n].index == k then before + [n] else before;
      FragmentsStep(ds, n, k, OfIndex(ds[..n], k), before);
      assert OfIndex(ds[..n], k) + [] == OfIndex(ds[..n], k);
    }
  }

  lemma NoFragmentsOf(k: int)
    ensures AreFragmentsOf([], k, [], [])
  {
  }

  lemma FragmentsStep(ds: seq<ToolDelta>, n: nat, k: int, own: seq<ToolDelta>, at: seq<nat>)
    requires |ds| == n + 1 && AreFragmentsOf(ds[..n], k, own, at)
    ensures ds[n].index == k ==> AreFragmentsOf(ds, k, own + [ds[n]], at + [n])
    ensures ds[n].index != k ==> AreFragmentsOf(ds, k, own, at)
  {
    assert forall p :: 0 <= p < n ==> ds[..n][p] == ds[p];
    var longer := at + [n];
    assert longer[|at|] == n;
    assert forall p :: p in at ==> p in longer;
  }

  // ----- the retry loop -----

  // `world[k]` is what the network delivers if a k-th call is made. The events
  // a caller sees are those of one call, the last one made; every earlier call
  // sent nothing and failed with a retryable error; and the loop stops early
  // on a failure only if something was sent or the error is not retryable.
  method StreamChunks(world: seq<Attempt>, retryAttempts: nat)
    returns (seen: seq<Event>, failure: Option<Failure>, attempts: nat)
    requires retryAttempts <= |world|
    ensures attempts <= retryAttempts && (attempts == 0 <==> retryAttempts == 0)
    ensures attempts == 0 ==> seen == [] && failure == Some(CALL_FAILED)
    ensures attempts > 0 ==> Outcome(seen, failure) == Once(world[attempts - 1])
    ensures forall k :: 0 <= k < attempts - 1 ==>
              Once(world[k]).events == [] && Once(world[k]).failure.Some? && Once(world[k]).failure.value.retryable
    ensures forall k :: 0 <= k < attempts - 1 ==> SendsNothing(world[k])
    ensures failure.Some? && 0 < attempts < retryAttempts ==> !SendsNothing(world[attempts - 1]) || !failure.value.retryable
  {
    hide Once, SendsNothing;
    seen, failure, attempts := [], Some(CALL_FAILED), 0;
    while attempts < retryAttempts
      invariant attempts <= retryAttempts
      invariant seen == [] && failure.Some?
      invariant attempts == 0 ==> failure == Some(CALL_FAILED)
      invariant attempts > 0 ==> attempts < retryAttempts && failure == Once(world[attempts - 1]).failure
      invariant forall k :: 0 <= k < attempts ==>
                  Once(world[k]).events == [] && Once(world[k]).failure.Some? && Once(world[k]).failure.value.retryable
      invariant forall k :: 0 <= k < attempts ==> SendsNothing(world[k])
    {
      var out := StreamChunksOnce(world[attempts]);
      var emittedAnything := false;
      for i := 0 to |out.events|
        invariant seen == out.events[..i]
        invariant emittedAnything == exists j :: 0 <= j < i && !out.events[j].Done?
      {
        if !out.events[i].Done? {
          emittedAnything := true;
        }
        seen := seen + [out.events[i]];
      }
      assert out.events[..|out.events|] == out.events;
      failure, attempts := out.failure, attempts + 1;
      if out.failure.None? {
        return;
      }
      FailedSendsNoDone(world[attempts - 1]);
      SilentCall(world[attempts - 1]);
      assert !emittedAnything ==> seen == [] by {
        if seen != [] {
          assert seen[0] in out.events;
        }
      }
      if emittedAnything || attempts >= retryAttempts || !out.failure.value.retryable {
        return;
      }
    }
  }

  // ----- merging fragments into a list of slots -----

  function Merged(slot: Slot, d: ToolDelta): Slot {
    Slot(if d.id != "" then d.id else slot.id, slot.name + d.name, slot.arguments + d.arguments)
  }

  function Padded(slots: seq<Slot>, n: int): (r: seq<Slot>)
    ensures |r| == if n <= |slots| then |slots| else n
  {
    if n <= |slots| then slots else slots + seq(n - |slots|, _ => EMPTY_SLOT)
  }

  // The list index `i` names, Python's negative indexes included.
  function Place(size: nat, i: int): int {
    if i < 0 then size + i else i
  }

  class ToolCallList {
    var slots: seq<Slot>

    constructor ()
      ensures slots == []
    {
      slots := [];
    }

    // One fragment; false when its list index is out of range, which raises.
    method MergeFragment(d: ToolDelta) returns (ok: bool)
      modifies this
      ensures MergeOne(old(slots), d) == (if ok then Some(slots) else None)
    {
      ghost var before := slots;
      while |slots| <= d.index
        invariant slots == Padded(before, |slots|) && |before| <= |slots|
        invariant |slots| == |before| || |slots| <= d.index + 1
      {
        slots := slots + [EMPTY_SLOT];
      }
      assert slots == Padded(before, d.index + 1);
      var at := if d.index < 0 then |slots| + d.index else d.index;
      if at < 0 {
        return false;
      }
      var slot := slots[at];
      if d.id != "" {
        slot := slot.(id := d.id);
      }
      assert slot.name + "" == slot.name && slot.arguments + "" == slot.arguments;
      slot := slot.(name := slot.name + d.name, arguments := slot.arguments + d.arguments);
      slots := slots[at := slot];
      ok := true;
    }

    // The fragments up to a failing one stay merged.
    method MergeDelta(deltas: seq<ToolDelta>) returns (ok: bool)
      modifies this
      ensures MergeRun(old(slots), deltas) == (if ok then Some(slots) else None)
    {
      hide MergeOne;
      for i := 0 to |deltas|
        invariant MergeRun(old(slots), deltas[..i]) == Some(slots)
      {
        assert deltas[..i + 1][..i] == deltas[..i];
        var fine := MergeFragment(deltas[i]);
        if !fine {
          MergeStops(old(slots), deltas, i + 1);
          return false;
        }
      }
      assert deltas[..|deltas|] == deltas;
      ok := true;
    }
  }

  function MergeOne(slots: seq<Slot>, d: ToolDelta): Option<seq<Slot>> {
    var padded := Padded(slots, d.index + 1);
    var at := Place(|padded|, d.index);
    if at < 0 then None else Some(padded[at := Merged(padded[at], d)])
  }

  function MergeRun(slots: seq<Slot>, ds: seq<ToolDelta>): Option<seq<Slot>>
    decreases |ds|
  {
    if ds == [] then Some(slots)
    else
      var before := MergeRun(slots, ds[..|ds| - 1]);
      if before.None? then None else MergeOne(before.value, ds[|ds| - 1])
  }

  lemma {:induction false} MergeStops(slots: seq<Slot>, ds: seq<ToolDelta>, n: nat)
    requires n <= |ds| && MergeRun(slots, ds[..n]).None?
    ensures MergeRun(slots, ds).None?
    decreases |ds| - n
  {
    if n < |ds| {
      assert ds[..n + 1][..n] == ds[..n];
      MergeStops(slots, ds, n + 1);
    } else {
      assert ds[..n] == ds;
    }
  }

  function HighestIndex(ds: seq<ToolDelta>): int {
    if ds == [] then -1
    else
      var before := HighestIndex(ds[..|ds| - 1]);
      if before < ds[|ds| - 1].index then ds[|ds| - 1].index else before
  }

  function MergedSlot(own: seq<ToolDelta>): Slot {
    Slot(LastId(own), Names(own), Arguments(own))
  }

  // The slot that the i-th fragment goes to: negative indexes count from the
  // end of the list as long as it is then.
  function Landing(ds: seq<ToolDelta>, i: nat): int
    requires i < |ds|
  {
    Place(Size(ds[..i + 1]), ds[i].index)
  }

  // The length of the list after the fragments.
  function Size(ds: seq<ToolDelta>): nat {
    if ds == [] then 0
    else
      var before := Size(ds[..|ds| - 1]);
      if before <= ds[|ds| - 1].index then ds[|ds| - 1].index + 1 else before
  }

  // The fragments that go to slot `k`, in order.
  function LandedAt(ds: seq<ToolDelta>, k: int): seq<ToolDelta> {
    if ds == [] then []
    else
      LandedAt(ds[..|ds| - 1], k) + (if Landing(ds, |ds| - 1) == k then [ds[|ds| - 1]] else [])
  }

  ghost predicate Collected(slots: seq<Slot>, ds: seq<ToolDelta>) {
    && |slots| == Size(ds)
    && (forall k :: 0 <= k < |slots| ==> slots[k] == MergedSlot(LandedAt(ds, k)))
    && (forall k :: k >= |slots| ==> LandedAt(ds, k) == [])
  }

  lemma MergedSnoc(own: seq<ToolDelta>, d: ToolDelta)
    ensures MergedSlot(own + [d]) == Merged(MergedSlot(own), d)
  {
    assert (own + [d])[..|own|] == own;
  }

  lemma LandedSnoc(ds: seq<ToolDelta>, d: ToolDelta)
    ensures var all := ds + [d];
            && Size(all) == (if Size(ds) <= d.index then d.index + 1 else Size(ds))
            && Landing(all, |ds|) == Place(Size(all), d.index)
            && (forall k :: LandedAt(all, k) == LandedAt(ds, k) + (if Landing(all, |ds|) == k then [d] else []))
            && (forall i :: 0 <= i < |ds| ==> Landing(all, i) == Landing(ds, i))
  {
    var all := ds + [d];
    assert all[..|ds|] == ds && all[..|ds| + 1] == all;
    forall i | 0 <= i < |ds|
      ensures Landing(all, i) == Landing(ds, i)
    {
      assert all[..i + 1] == ds[..i + 1];
    }
  }

  lemma CollectedSnoc(slots: seq<Slot>, ds: seq<ToolDelta>, d: ToolDelta)
    requires Collected(slots, ds)
    ensures MergeOne(slots, d).Some? <==> Landing(ds + [d], |ds|) >= 0
    ensures MergeOne(slots, d).Some? ==> Collected(MergeOne(slots, d).value, ds + [d])
  {
    hide MergedSlot, Merged, LandedAt, Landing, Size;
    LandedSnoc(ds, d);
    if MergeOne(slots, d).Some? {
      var next, all := MergeOne(slots, d).value, ds + [d];
      var padded := Padded(slots, d.index + 1);
      var at := Place(|padded|, d.index);
      MergedSnoc(LandedAt(ds, at), d);
      EmptyMerged();
      forall k | 0 <= k < |next|
        ensures next[k] == MergedSlot(LandedAt(all, k))
      {
        assert padded[k] == MergedSlot(LandedAt(ds, k));
        assert LandedAt(ds, k) + [] == LandedAt(ds, k);
      }
    }
  }

  lemma CollectedNothing()
    ensures Collected([], [])
  {
  }

  lemma EmptyMerged()
    ensures MergedSlot([]) == EMPTY_SLOT
  {
  }

  // From an empty list: the merging fails exactly when a negative index reaches
  // before the start of the list. Otherwise slot `k` holds the fragments that
  // went there in order: the names and the arguments concatenated, the last id.
  lemma {:induction false} MergeCollects(ds: seq<ToolDelta>)
    ensures MergeRun([], ds).Some? <==> forall i :: 0 <= i < |ds| ==> Landing(ds, i) >= 0
    ensures MergeRun([], ds).Some? ==> Collected(MergeRun([], ds).value, ds)
    decreases |ds|
  {
    hide Collected, MergeOne, Landing;
    if ds == [] {
      CollectedNothing();
    } else {
      var n := |ds| - 1;
      MergeCollects(ds[..n]);
      LandedSnoc(ds[..n], ds[n]);
      assert ds[..n] + [ds[n]] == ds;
      if MergeRun([], ds[..n]).Some? {
        CollectedSnoc(MergeRun([], ds[..n]).value, ds[..n], ds[n]);
      }
    }
  }

  // Without negative indexes a fragment goes to the slot of its index, and the
  // list ends at the highest one.
  lemma {:induction false} LandsAtIndex(ds: seq<ToolDelta>, k: int)
    requires forall d :: d in ds ==> d.index >= 0
    ensures LandedAt(ds, k) == OfIndex(ds, k) && Size(ds) == HighestIndex(ds) + 1
    ensures forall i :: 0 <= i < |ds| ==> Landing(ds, i) == ds[i].index
    decreases |ds|
  {
    hide LandedAt, Landing, OfIndex;
    if ds == [] {
      NothingLands(k);
    } else {
      var n := |ds| - 1;
      LandsAtIndex(ds[..n], k);
      LandedSnoc(ds[..n], ds[n]);
      AssembledSnoc(ds[..n], ds[n], k);
      assert ds[..n] + [ds[n]] == ds;
    }
  }

  lemma NothingLands(k: int)
    ensures LandedAt([], k) == OfIndex([], k) == []
  {
  }

  // ----- when the two ways of collecting agree -----

  // Slot by slot they agree on id and arguments always, and on the name exactly
  // when the name came in at most one fragment.
  lemma SlotsAgree(ds: seq<ToolDelta>, k: nat)
    requires forall d :: d in ds ==> d.index >= 0
    requires k <= HighestIndex(ds)
    ensures var list := MergeRun([], ds);
            && list.Some? && |list.value| == HighestIndex(ds) + 1
            && var merged, streamed := list.value[k], Assembled(ds, k);
               && merged.id == streamed.id
               && merged.arguments == streamed.arguments
               && (merged.name == streamed.name <==> NamedFragments(OfIndex(ds, k)) <= 1)
  {
    hide LandedAt, Landing, OfIndex, HighestIndex, Size, MergeRun;
    MergeCollects(ds);
    LandsAtIndex(ds, k);
    NamesAgree(OfIndex(ds, k));
  }

  // Increasing numbers of 0 .. n - 1: the i-th is at least i, and there is room
  // for those after it.
  lemma {:induction false} IncreasingBelow(keys: seq<int>, n: nat)
    requires forall i, j :: 0 <= i < j < |keys| ==> keys[i] < keys[j]
    requires forall i :: 0 <= i < |keys| ==> 0 <= keys[i] < n
    ensures |keys| <= n && forall i :: 0 <= i < |keys| ==> i <= keys[i] <= n - |keys| + i
    decreases |keys|
  {
    if keys != [] {
      var m := |keys| - 1;
      IncreasingBelow(keys[..m], keys[m]);
    }
  }

  // When all of them occur, the i-th is i.
  lemma {:induction false} AllOccur(keys: seq<int>, n: nat, j: nat)
    requires forall i, k :: 0 <= i < k < |keys| ==> keys[i] < keys[k]
    requires forall i :: 0 <= i < |keys| ==> 0 <= keys[i] < n
    requires forall k :: 0 <= k < n ==> k in keys
    requires j <= n
    ensures j <= |keys| <= n && forall i :: 0 <= i < j ==> keys[i] == i
    decreases j
  {
    IncreasingBelow(keys, n);
    if j > 0 {
      AllOccur(keys, n, j - 1);
      assert j - 1 in keys;
      var i :| 0 <= i < |keys| && keys[i] == j - 1;
    }
  }

  ghost predicate AllThere<T>(keys: seq<int>, all: seq<T>, at: int -> T) {
    forall k :: 0 <= k < |all| ==> k in keys && at(k) == all[k]
  }

  // A list of what stands at increasing numbers below n is the list of all n
  // exactly when every number occurs and what stands there is the same.
  lemma PickedIsAll<T>(keys: seq<int>, picked: seq<T>, all: seq<T>, at: int -> T)
    requires forall i, j :: 0 <= i < j < |keys| ==> keys[i] < keys[j]
    requires forall i :: 0 <= i < |keys| ==> 0 <= keys[i] < |all|
    requires |picked| == |keys| && forall i :: 0 <= i < |keys| ==> picked[i] == at(keys[i])
    ensures picked == all <==> AllThere(keys, all, at)
  {
    IncreasingBelow(keys, |all|);
    if picked == all {
      forall k | 0 <= k < |all|
        ensures k in keys && at(k) == all[k]
      {
        assert keys[k] == k;
      }
    }
    if AllThere(keys, all, at) {
      AllOccur(keys, |all|, |all|);
    }
  }

  // No index below the highest is left out, and no name comes in
  // two fragments.
  ghost predicate EachIndexOnce(ds: seq<ToolDelta>) {
    forall k: nat :: k <= HighestIndex(ds) ==> OfIndex(ds, k) != [] && NamedFragments(OfIndex(ds, k)) <= 1
  }

  // The slots of the final message are the merged list exactly when no index
  // below the highest is left out and every name came in at most one fragment:
  // the merged list pads the gaps, the streamed call does not.
  lemma AggregatorsAgree(acc: Acc, ds: seq<ToolDelta>)
    requires ToolsFollow(acc, ds) && forall d :: d in ds ==> d.index >= 0
    ensures MergeRun([], ds).Some?
    ensures FinalCalls(acc.tools) == MergeRun([], ds).value <==> EachIndexOnce(ds)
  {
    hide Assembled, OfIndex, HighestIndex, Size, MergeRun, FinalCalls, SortedKeys, ToolsFollow, AllThere, EachIndexOnce;
    MergeLength(ds);
    CallsAreSlots(acc, ds);
    var keys := SortedKeys(set d | d in ds :: d.index);
    var list := MergeRun([], ds).value;
    KeysOccur(ds, keys);
    KeysBelow(ds, keys);
    PickedIsAll(keys, FinalCalls(acc.tools), list, k => Assembled(ds, k));
    AllThereIsOnce(ds, keys, list, k => Assembled(ds, k));
  }

  lemma AllThereIsOnce(ds: seq<ToolDelta>, keys: seq<int>, list: seq<Slot>, at: int -> Slot)
    requires forall d :: d in ds ==> d.index >= 0
    requires MergeRun([], ds) == Some(list) && |list| == HighestIndex(ds) + 1
    requires forall k :: k in keys <==> OfIndex(ds, k) != []
    requires forall k :: at(k) == Assembled(ds, k)
    ensures AllThere(keys, list, at) <==> EachIndexOnce(ds)
  {
    hide Assembled, OfIndex, HighestIndex, MergeRun, NamedFragments;
    forall k | 0 <= k < |list|
      ensures at(k) == list[k] <==> NamedFragments(OfIndex(ds, k)) <= 1
    {
      SlotsAgree(ds, k);
    }
    if AllThere(keys, list, at) {
      forall k: nat | k <= HighestIndex(ds)
        ensures OfIndex(ds, k) != [] && NamedFragments(OfIndex(ds, k)) <= 1
      {
        assert k in keys && at(k) == list[k];
      }
    }
    if EachIndexOnce(ds) {
      forall k | 0 <= k < |list|
        ensures k in keys && at(k) == list[k]
      {
        assert OfIndex(ds, k) != [];
      }
    }
  }

  lemma MergeLength(ds: seq<ToolDelta>)
    requires forall d :: d in ds ==> d.index >= 0
    ensures MergeRun([], ds).Some? && |MergeRun([], ds).value| == HighestIndex(ds) + 1
  {
    hide LandedAt, Landing, HighestIndex, Size, MergeRun;
    MergeCollects(ds);
    LandsAtIndex(ds, 0);
  }

  lemma KeysBelow(ds: seq<ToolDelta>, keys: seq<int>)
    requires forall d :: d in ds ==> d.index >= 0
    requires forall k :: k in keys <==> exists d :: d in ds && d.index == k
    ensures forall i :: 0 <= i < |keys| ==> 0 <= keys[i] <= HighestIndex(ds)
  {
    HighestIsHighest(ds);
    forall i | 0 <= i < |keys|
      ensures 0 <= keys[i] <= HighestIndex(ds)
    {
      assert keys[i] in keys;
    }
  }

  lemma KeysOccur(ds: seq<ToolDelta>, keys: seq<int>)
    requires keys == SortedKeys(set d | d in ds :: d.index)
    ensures forall k :: k in keys <==> OfIndex(ds, k) != []
    ensures forall k :: k in keys <==> exists d :: d in ds && d.index == k
  {
    hide OfIndex;
    SortedKeysSorted(set d | d in ds :: d.index);
    forall k
      ensures k in keys <==> OfIndex(ds, k) != []
    {
      OfIndexNonEmpty(ds, k);
    }
  }

  lemma {:induction false} HighestIsHighest(ds: seq<ToolDelta>)
    ensures HighestIndex(ds) >= -1 && forall d :: d in ds ==> d.index <= HighestIndex(ds)
    decreases |ds|
  {
    if ds != [] {
      HighestIsHighest(ds[..|ds| - 1]);
      assert ds == ds[..|ds| - 1] + [ds[|ds| - 1]];
    }
  }

  // For a whole call: its final message carries the merged list exactly then.
  lemma FinalMessageIsMerged(a: Attempt, cs: seq<Chunk>)
    requires Once(a).failure.None? && Delivers(a, cs)
    requires forall d :: d in AllTools(cs) ==> d.index >= 0
    ensures var es := Once(a).events;
            var ds := AllTools(cs);
            && es != [] && es[|es| - 1].Done? && MergeRun([], ds).Some?
            && var merged := MergeRun([], ds).value;
               es[|es| - 1].toolCalls == (if merged == [] then None else Some(merged)) <==> EachIndexOnce(ds)
  {
    hide Received, Delivers, ContentText, ReasoningText, FeedAll, ToolEvents, FinalCalls, OfIndex, MergeRun, HighestIndex, ToolsFollow,
         NamedFragments;
    DeliveredIsReceived(a, cs);
    ChunksTracked(cs);
    ChunksCarry(cs);
    var acc := AbsorbAll(FRESH, cs);
    AggregatorsAgree(acc, Fragments(cs));
    FinishSends(acc);
  }

  // Fragments of index 0 and 2, each name in one fragment: three merged slots,
  // two streamed ones.
  lemma GapsArePadded(acc: Acc, first: ToolDelta, third: ToolDelta)
    requires first.index == 0 && third.index == 2 && ToolsFollow(acc, [first, third])
    ensures MergeRun([], [first, third]).Some? && |MergeRun([], [first, third]).value| == 3
    ensures |FinalCalls(acc.tools)| == 2
  {
    hide FinalCalls, SortedKeys, ToolsFollow, MergeRun, Assembled;
    var ds := [first, third];
    MergeLength(ds);
    assert ds[..1] == [first] && ds[..1][..0] == [];
    assert HighestIndex([first]) == 0;
    TwoCalls(acc, first, third);
  }

  lemma TwoCalls(acc: Acc, one: ToolDelta, two: ToolDelta)
    requires ToolsFollow(acc, [one, two]) && one.index != two.index
    ensures var low, high := if one.index < two.index then one.index else two.index,
                             if one.index < two.index then two.index else one.index;
            FinalCalls(acc.tools) == [Assembled([one, two], low), Assembled([one, two], high)]
  {
    hide FinalCalls, SortedKeys, ToolsFollow, Assembled, OfIndex;
    var ds := [one, two];
    CallsAreSlots(acc, ds);
    var keys := SortedKeys(set d | d in ds :: d.index);
    KeysOccur(ds, keys);
    assert one in ds && two in ds;
    TwoKeys(keys, if one.index < two.index then one.index else two.index, if one.index < two.index then two.index else one.index);
  }

  lemma TwoKeys(keys: seq<int>, a: int, b: int)
    requires forall i, j :: 0 <= i < j < |keys| ==> keys[i] < keys[j]
    requires a < b && forall k :: k in keys <==> k == a || k == b
    ensures keys == [a, b]
  {
    assert a in keys && b in keys;
    forall k | 0 <= k < |keys|
      ensures keys[k] == a || keys[k] == b
    {
      assert keys[k] in keys;
    }
    IncreasingBelow(seq(|keys|, i requires 0 <= i < |keys| => if keys[i] == a then 0 else 1), 2);
  }

  // A negative index is merged into a slot that is there, and has a slot of its
  // own in the streamed call.
  lemma NegativeIndexIsMerged(acc: Acc, first: ToolDelta, more: ToolDelta)
    requires first.index == 0 && more.index == -1 && ToolsFollow(acc, [first, more])
    ensures MergeRun([], [first, more]) == Some([MergedSlot([first, more])])
    ensures FinalCalls(acc.tools) == [Assembled([first, more], -1), Assembled([first, more], 0)]
  {
    hide FinalCalls, ToolsFollow, MergeRun, MergedSlot, Assembled;
    MergeCollects([first, more]);
    BothLandAtZero(first, more);
    assert MergeRun([], [first, more]).value == [MergedSlot([first, more])];
    TwoCalls(acc, first, more);
  }

  lemma BothLandAtZero(first: ToolDelta, more: ToolDelta)
    requires first.index == 0 && more.index == -1
    ensures var ds := [first, more];
            Size(ds) == 1 && LandedAt(ds, 0) == ds && forall i :: 0 <= i < 2 ==> Landing(ds, i) == 0
  {
    hide Landing, LandedAt, Size;
    NothingLands(0);
    EmptySize();
    LandedSnoc([], first);
    assert [] + [first] == [first];
    LandedSnoc([first], more);
    assert [first] + [more] == [first, more];
  }

  lemma EmptySize()
    ensures Size([]) == 0
  {
  }

  function NamedFragments(ds: seq<ToolDelta>): nat {
    if ds == [] then 0
    else NamedFragments(ds[..|ds| - 1]) + (if ds[|ds| - 1].name != "" then 1 else 0)
  }

  lemma {:induction false} NamesAgree(ds: seq<ToolDelta>)
    ensures |Names(ds)| >= |LastName(ds)|
    ensures NamedFragments(ds) == 0 <==> Names(ds) == ""
    ensures NamedFragments(ds) == 0 ==> LastName(ds) == ""
    ensures Names(ds) == LastName(ds) <==> NamedFragments(ds) <= 1
    decreases |ds|
  {
    if ds != [] {
      NamesAgree(ds[..|ds| - 1]);
    }
  }
}
