/**
 What an OpenAI-compatible stream means: the reply that its events add up to. JSON parsing is a
 parameter; an event is what the parser looks at in one.
 */
module CompatibleReply {
  import opened Wrappers
  import opened LineFraming
  import opened ThinkingBlocks

  /** A field is NULL until something is appended to it. */
  datatype ToolCall = ToolCall(id: Option<string>, name: Option<string>, arguments: Option<string>)

  const NO_CALL := ToolCall(None, None, None)

  /** One entry of delta.tool_calls; a missing index counts as 0. */
  datatype ToolDelta = ToolDelta(index: int, id: Option<string>, name: Option<string>, arguments: Option<string>)

  /** What an event carries; an event without a delta carries nothing. */
  datatype Event = Event(reasoning: Option<string>, content: Option<string>, tools: seq<ToolDelta>)

  datatype Reply = Reply(text: Transcript, calls: seq<ToolCall>)

  const EMPTY := Reply(SILENCE, [])

  type Decoder = string -> Option<Event>

  // ----- one event -----

  function Append(field: Option<string>, piece: Option<string>): Option<string> {
    if piece.None? then field else Some(field.GetOr("") + piece.value)
  }

  function Extend(call: ToolCall, d: ToolDelta): ToolCall {
    ToolCall(Append(call.id, d.id), Append(call.name, d.name), Append(call.arguments, d.arguments))
  }

  /** Slots up to `index` exist. */
  function Ensure(calls: seq<ToolCall>, index: nat): seq<ToolCall> {
    if index < |calls| then calls else calls + seq(index + 1 - |calls|, _ => NO_CALL)
  }

  function FoldTools(calls: seq<ToolCall>, deltas: seq<ToolDelta>): Option<seq<ToolCall>> {
    if deltas == [] then Some(calls)
    else
      var before := FoldTools(calls, deltas[..|deltas| - 1]);
      var d := deltas[|deltas| - 1];
      if before.None? || d.index < 0 then None
      else
        var slots := Ensure(before.value, d.index);
        Some(slots[d.index := Extend(slots[d.index], d)])
  }

  /** Empty reasoning and empty content count as none. */
  function ApplyText(t: Transcript, e: Event): Transcript {
    var thought := Think(t, e.reasoning.GetOr(""));
    if e.content.GetOr("") == "" then thought else Say(thought, e.content.value)
  }

  function ApplyEvent(r: Reply, e: Event): Option<Reply> {
    var calls := FoldTools(r.calls, e.tools);
    if calls.None? then None else Some(Reply(ApplyText(r.text, e), calls.value))
  }

  // ----- lines -----

  /** The text of a line: one carriage return at its end is dropped, and it ends at a NUL. */
  function LineText(raw: string): string {
    CString(if raw != "" && raw[|raw| - 1] == '\r' then raw[..|raw| - 1] else raw)
  }

  function Payload(text: string): Option<string> {
    if "data: " <= text && text[6..] != "[DONE]" then Some(text[6..]) else None
  }

  function ApplyLine(decode: Decoder, r: Reply, raw: string): Option<Reply> {
    var payload := Payload(LineText(raw));
    if payload.None? then Some(r)
    else
      var event := decode(payload.value);
      if event.None? then None else ApplyEvent(r, event.value)
  }

  function ApplyLines(decode: Decoder, lines: seq<string>): Option<Reply> {
    if lines == [] then Some(EMPTY)
    else
      var before := ApplyLines(decode, lines[..|lines| - 1]);
      if before.None? then None else ApplyLine(decode, before.value, lines[|lines| - 1])
  }

  /** The meaning of a whole stream: cut it into lines, fold them, take the unfinished line for one, close. */
  function Parse(decode: Decoder, bytes: string): Option<Reply> {
    var lines := ApplyLines(decode, Lines(bytes));
    if lines.None? then None
    else
      var all := ApplyLine(decode, lines.value, Tail(bytes));
      if all.None? then None else Some(all.value.(text := Close(all.value.text)))
  }

  /** A failure is not undone by what follows. */
  lemma {:induction false} FailureStays(decode: Decoder, lines: seq<string>, more: seq<string>)
    requires lines <= more && ApplyLines(decode, lines).None?
    ensures ApplyLines(decode, more).None?
  {
    if lines != more {
      FailureStays(decode, lines, more[..|more| - 1]);
    }
  }

  lemma LineEnds(decode: Decoder, bytes: string)
    requires ApplyLines(decode, Lines(bytes)).Some?
    ensures ApplyLines(decode, Lines(bytes + "\n")) ==
        ApplyLine(decode, ApplyLines(decode, Lines(bytes)).value, Tail(bytes))
    ensures Tail(bytes + "\n") == ""
  {
    hide ApplyLine;
    OneMore(bytes, '\n');
    var lines := Lines(bytes) + [Tail(bytes)];
    assert lines[..|lines| - 1] == Lines(bytes);
  }

  // ----- thinking blocks -----

  lemma EventFaithful(r: Reply, e: Event)
    requires Faithful(r.text)
    ensures var r' := ApplyEvent(r, e); r'.Some? ==> Faithful(r'.value.text)
  {
    hide FoldTools, Faithful, Think, Say;
    ThinkFaithful(r.text, e.reasoning.GetOr(""));
    SayFaithful(Think(r.text, e.reasoning.GetOr("")), e.content.GetOr(""));
  }

  lemma LineFaithful(decode: Decoder, r: Reply, raw: string)
    requires Faithful(r.text)
    ensures var r' := ApplyLine(decode, r, raw); r'.Some? ==> Faithful(r'.value.text)
  {
    hide ApplyEvent, Faithful;
    var payload := Payload(LineText(raw));
    if payload.Some? && decode(payload.value).Some? {
      EventFaithful(r, decode(payload.value).value);
    }
  }

  lemma {:induction false} LinesFaithful(decode: Decoder, lines: seq<string>)
    ensures var r := ApplyLines(decode, lines); r.Some? ==> Faithful(r.value.text)
  {
    if lines != [] && ApplyLines(decode, lines).Some? {
      var before := lines[..|lines| - 1];
      LinesFaithful(decode, before);
      LineFaithful(decode, ApplyLines(decode, before).value, lines[|lines| - 1]);
    }
  }

  /** On every successful stream the markers alternate and end closed, and the content is what the callback got. */
  lemma BlocksEndClosed(decode: Decoder, bytes: string)
    requires Parse(decode, bytes).Some?
    ensures var text := Parse(decode, bytes).value.text;
            text.content == Rendered(text.delivered) && Bracketed(text.delivered, false) && !text.thinking
  {
    LinesFaithful(decode, Lines(bytes));
    LineFaithful(decode, ApplyLines(decode, Lines(bytes)).value, Tail(bytes));
    CloseFaithful(ApplyLine(decode, ApplyLines(decode, Lines(bytes)).value, Tail(bytes)).value.text);
  }

  // ----- tool calls -----

  /** The deltas for one slot, in their order. */
  function Only(deltas: seq<ToolDelta>, index: int): seq<ToolDelta> {
    if deltas == [] then []
    else Only(deltas[..|deltas| - 1], index)
         + if deltas[|deltas| - 1].index == index then [deltas[|deltas| - 1]] else []
  }

  function Assemble(deltas: seq<ToolDelta>): ToolCall {
    if deltas == [] then NO_CALL else Extend(Assemble(deltas[..|deltas| - 1]), deltas[|deltas| - 1])
  }

  /** How many slots the deltas ask for. */
  function Slots(deltas: seq<ToolDelta>): nat {
    if deltas == [] then 0
    else
      var before, index := Slots(deltas[..|deltas| - 1]), deltas[|deltas| - 1].index;
      if index < before then before else index + 1
  }

  /** However deltas are interleaved, each slot holds what its own deltas add up to, and the fold fails exactly when
      some index is negative. */
  lemma {:induction false} ToolCallsApart(deltas: seq<ToolDelta>)
    ensures FoldTools([], deltas).Some? <==> forall d | d in deltas :: d.index >= 0
    ensures var calls := FoldTools([], deltas);
            calls.Some? ==>
              && |calls.value| == Slots(deltas)
              && forall i | 0 <= i < |calls.value| :: calls.value[i] == Assemble(Only(deltas, i))
    ensures forall i | i >= Slots(deltas) :: Only(deltas, i) == []
  {
    if deltas != [] {
      var before, d := deltas[..|deltas| - 1], deltas[|deltas| - 1];
      ToolCallsApart(before);
      assert deltas == before + [d];
      var was := FoldTools([], before);
      if was.Some? && d.index >= 0 {
        var slots := Ensure(was.value, d.index);
        forall i | 0 <= i < |slots| ensures slots[i] == Assemble(Only(before, i)) {}
        forall i | 0 <= i < |slots|
          ensures FoldTools([], deltas).value[i] == Assemble(Only(deltas, i))
        {
          if i == d.index {
            assert Only(deltas, i)[..|Only(deltas, i)| - 1] == Only(before, i);
          } else {
            assert Only(deltas, i) == Only(before, i);
          }
        }
      }
    }
  }

  /** Folding in two goes is folding in one. */
  lemma {:induction false} FoldToolsConcat(calls: seq<ToolCall>, a: seq<ToolDelta>, b: seq<ToolDelta>)
    ensures var first := FoldTools(calls, a);
            FoldTools(calls, a + b) == if first.None? then None else FoldTools(first.value, b)
  {
    if b == [] {
      assert a + b == a;
    } else {
      var all := a + b;
      assert all[..|all| - 1] == a + b[..|b| - 1] && all[|all| - 1] == b[|b| - 1];
      FoldToolsConcat(calls, a, b[..|b| - 1]);
    }
  }

  /** The deltas that a line brings, and those of many lines in their order. */
  function LineDeltas(decode: Decoder, raw: string): seq<ToolDelta> {
    var payload := Payload(LineText(raw));
    if payload.None? || decode(payload.value).None? then [] else decode(payload.value).value.tools
  }

  function DeltasOf(decode: Decoder, lines: seq<string>): seq<ToolDelta> {
    if lines == [] then [] else DeltasOf(decode, lines[..|lines| - 1]) + LineDeltas(decode, lines[|lines| - 1])
  }

  /** Every tool-call delta of a stream, whichever event it came in. */
  function StreamDeltas(decode: Decoder, bytes: string): seq<ToolDelta> {
    DeltasOf(decode, Lines(bytes)) + LineDeltas(decode, Tail(bytes))
  }

  lemma LineCalls(decode: Decoder, r: Reply, raw: string)
    ensures var r' := ApplyLine(decode, r, raw);
            r'.Some? ==> FoldTools(r.calls, LineDeltas(decode, raw)) == Some(r'.value.calls)
  {
    hide Payload, LineText, ApplyText;
  }

  lemma {:induction false} LinesCalls(decode: Decoder, lines: seq<string>)
    ensures var r := ApplyLines(decode, lines);
            r.Some? ==> FoldTools([], DeltasOf(decode, lines)) == Some(r.value.calls)
  {
    hide ApplyLine, LineDeltas;
    if lines != [] && ApplyLines(decode, lines).Some? {
      var before, raw := lines[..|lines| - 1], lines[|lines| - 1];
      LinesCalls(decode, before);
      hide FoldTools;
      LineCalls(decode, ApplyLines(decode, before).value, raw);
      FoldToolsConcat([], DeltasOf(decode, before), LineDeltas(decode, raw));
    }
  }

  /** On every successful stream the calls are the fold of all its deltas: however the deltas of several calls are
      interleaved, within events and over events, each slot holds what its own deltas add up to. */
  lemma StreamToolCalls(decode: Decoder, bytes: string)
    requires Parse(decode, bytes).Some?
    ensures var calls, deltas := Parse(decode, bytes).value.calls, StreamDeltas(decode, bytes);
            && |calls| == Slots(deltas)
            && (forall i | 0 <= i < |calls| :: calls[i] == Assemble(Only(deltas, i)))
            && forall d | d in deltas :: d.index >= 0
  {
    hide ApplyLine, LineDeltas, FoldTools, Slots, Assemble, Only;
    var lines := ApplyLines(decode, Lines(bytes)).value;
    LinesCalls(decode, Lines(bytes));
    LineCalls(decode, lines, Tail(bytes));
    FoldToolsConcat([], DeltasOf(decode, Lines(bytes)), LineDeltas(decode, Tail(bytes)));
    ToolCallsApart(StreamDeltas(decode, bytes));
  }
}
