/**
 What a Codex stream means: lines, events gathered from data lines, and the reply they add up to.
 JSON parsing is a parameter; an event is what the parser looks at in one.
 */
module CodexReply {
  import opened Wrappers
  import opened LineFraming
  import opened ThinkingBlocks
  import opened CodexCalls

  const MAX_RESPONSE_BYTES := 32 * 1024 * 1024
  const MAX_SSE_EVENT_BYTES := 4 * 1024 * 1024

  /** A message item may carry a phase, and then it must be a non-empty string. */
  datatype Phase = NoPhase | BadPhase | Named(phase: string)

  /** An output item with its type; `summary` is the text entries of a reasoning item. */
  datatype Item =
    | FunctionCall(call: CallItem)
    | Reasoning(source: string, summary: seq<string>)
    | Message(phase: Phase)
    | OtherItem

  /** The output of a completed response; an entry without a type is None. */
  datatype Output = NoOutput | BadOutput | Items(items: seq<Option<Item>>)

  /** A JSON object with a type. Text that is not a string is None; so is an item without a type. */
  datatype Event =
    | TextDelta(text: Option<string>)              // output_text.delta and refusal.delta
    | SummaryDelta(text: Option<string>)
    | SummaryDone(text: Option<string>)
    | ItemAdded(outputIndex: int, item: Option<Item>)
    | ItemDone(outputIndex: int, item: Option<Item>)
    | ArgumentsDelta(keys: Keys, value: Option<string>)
    | ArgumentsDone(keys: Keys, value: Option<string>)
    | Completed(ok: bool, output: Output)
    | RefusalDone(valid: bool)
    | Failed                                       // response.failed, response.incomplete, error
    | OtherEvent

  type Decoder = string -> Option<Event>

  datatype Reply = Reply(text: Transcript, table: CallTable, phase: Option<string>, reasoning: seq<string>,
                         terminal: bool, completed: bool, failed: bool, summarySeen: bool)

  const EMPTY := Reply(SILENCE, NO_CALLS, None, [], false, false, false, false)

  // ----- summaries -----

  /** Without the markers of HTML comments. */
  function Strip(text: string): string {
    if text == "" then ""
    else if "<!--" <= text then Strip(text[4..])
    else if "-->" <= text then Strip(text[3..])
    else [text[0]] + Strip(text[1..])
  }

  predicate Contains(text: string, part: string) {
    part <= text || (text != "" && Contains(text[1..], part))
  }

  predicate IsSpace(c: char) {
    c == ' ' || '\t' <= c <= '\r'
  }

  predicate Blank(text: string) {
    forall c | c in text :: IsSpace(c)
  }

  /** A summary is reasoning; comment markers are dropped, and what is then only white space is nothing. */
  function Summarize(t: Transcript, text: string): Transcript {
    if !Contains(text, "<!--") && !Contains(text, "-->") then Think(t, text)
    else if Blank(Strip(text)) then t
    else Think(t, Strip(text))
  }

  /** The non-empty parts, a newline between them. */
  function JoinParts(parts: seq<string>): string {
    if parts == [] then ""
    else
      var before, part := JoinParts(parts[..|parts| - 1]), parts[|parts| - 1];
      if part == "" then before else if before == "" then part else before + "\n" + part
  }

  // ----- events -----

  function SetPhase(phase: Option<string>, p: Phase): Option<Option<string>> {
    match p
    case NoPhase => Some(phase)
    case BadPhase => None
    case Named(name) => Some(Some(name))
  }

  /** One item of the completed response: a call is filled in under its position, the phase is taken. */
  function MergeOne(table: CallTable, phase: Option<string>, position: nat, item: Option<Item>)
    : (r: Option<(CallTable, Option<string>)>)
    requires Bound(table)
    ensures r.Some? ==> Bound(r.value.0)
  {
    match item
    case None => None
    case Some(FunctionCall(call)) =>
      (var t := Upsert(table, position, call); if t.None? then None else Some((t.value, phase)))
    case Some(Message(p)) => (var named := SetPhase(phase, p); if named.None? then None else Some((table, named.value)))
    case Some(_) => Some((table, phase))
  }

  function MergeItems(table: CallTable, phase: Option<string>, items: seq<Option<Item>>)
    : (r: Option<(CallTable, Option<string>)>)
    requires Bound(table)
    ensures r.Some? ==> Bound(r.value.0)
  {
    if items == [] then Some((table, phase))
    else
      var before := MergeItems(table, phase, items[..|items| - 1]);
      if before.None? then None else MergeOne(before.value.0, before.value.1, |items| - 1, items[|items| - 1])
  }

  lemma NothingMerged(table: CallTable, phase: Option<string>)
    requires Bound(table)
    ensures MergeItems(table, phase, []) == Some((table, phase)) && Sources([]) == []
  {
  }

  lemma MergeOneMore(table: CallTable, phase: Option<string>, items: seq<Option<Item>>, i: nat)
    requires Bound(table) && i < |items|
    ensures var before := MergeItems(table, phase, items[..i]);
            MergeItems(table, phase, items[..i + 1]) ==
            if before.None? then None else MergeOne(before.value.0, before.value.1, i, items[i])
    ensures Sources(items[..i + 1]) ==
            Sources(items[..i]) + if items[i].Some? && items[i].value.Reasoning? then [items[i].value.source] else []
  {
    hide MergeOne;
    assert items[..i + 1][..i] == items[..i];
  }

  function Sources(items: seq<Option<Item>>): seq<string> {
    if items == [] then []
    else
      var item := items[|items| - 1];
      Sources(items[..|items| - 1]) + if item.Some? && item.value.Reasoning? then [item.value.source] else []
  }

  function Merge(r: Reply, output: Output): (m: Option<Reply>)
    requires Bound(r.table)
    ensures m.Some? ==> Bound(m.value.table)
  {
    match output
    case NoOutput => Some(r)
    case BadOutput => None
    case Items(items) =>
      var merged := MergeItems(r.table, r.phase, items);
      if merged.None? then None
      else
        Some(r.(table := merged.value.0, phase := merged.value.1,
                reasoning := if Sources(items) != [] then Sources(items) else r.reasoning))
  }

  function WithTable(r: Reply, table: Option<CallTable>): Option<Reply> {
    if table.None? then None else Some(r.(table := table.value))
  }

  /** A reasoning item ends the block; its own summary is used when no deltas have opened one. */
  function FinishReasoning(r: Reply, source: string, summary: seq<string>): Reply {
    var told := if r.text.thinking then r.text else Summarize(r.text, JoinParts(summary));
    r.(reasoning := r.reasoning + [source], text := Close(told), summarySeen := false)
  }

  function ApplyEvent(r: Reply, e: Event): (s: Option<Reply>)
    requires Bound(r.table)
    ensures s.Some? ==> Bound(s.value.table)
  {
    match e
    case TextDelta(text) => if text.None? then None else Some(r.(text := Say(r.text, text.value)))
    case SummaryDelta(text) =>
      if text.None? then None else Some(r.(text := Summarize(r.text, text.value), summarySeen := true))
    case SummaryDone(text) =>
      if r.summarySeen || text.None? then Some(r) else Some(r.(text := Summarize(r.text, text.value)))
    case ItemAdded(index, item) =>
      if item.None? then None
      else if item.value.FunctionCall? then WithTable(r, Upsert(r.table, index, item.value.call))
      else Some(r)
    case ItemDone(index, item) =>
      if item.None? then None
      else (match item.value
        case FunctionCall(call) => WithTable(r, Upsert(r.table, index, call))
        case Reasoning(source, summary) => Some(FinishReasoning(r, source, summary))
        case Message(p) =>
          (var named := SetPhase(r.phase, p); if named.None? then None else Some(r.(phase := named.value)))
        case OtherItem => Some(r))
    case ArgumentsDelta(keys, value) =>
      if value.None? then None else WithTable(r, Argue(r.table, keys, value.value, false))
    case ArgumentsDone(keys, value) =>
      if value.None? then None else WithTable(r, Argue(r.table, keys, value.value, true))
    case Completed(ok, output) =>
      if !ok then None else Merge(r.(terminal := true, completed := true), output)
    case RefusalDone(valid) => if valid then Some(r) else None
    case Failed => Some(r.(terminal := true, failed := true))
    case OtherEvent => Some(r)
  }

  // ----- lines -----

  /** The reply so far and the data gathered for the next event. */
  datatype State = State(reply: Reply, data: string)

  predicate Sound(s: State) {
    Bound(s.reply.table)
  }

  /** A blank line hands the gathered data on as an event. */
  function Dispatch(decode: Decoder, s: State): (r: Option<State>)
    requires Sound(s)
    ensures r.Some? ==> Sound(r.value)
  {
    if s.data == "" then Some(s)
    else if s.data == "[DONE]" then Some(State(s.reply.(terminal := true), ""))
    else
      var event := decode(s.data);
      var reply := if event.None? then None else ApplyEvent(s.reply, event.value);
      if reply.None? then None else Some(State(reply.value, ""))
  }

  /** A buffer that takes no more than the limit. */
  function Gather(data: string, more: string): Option<string> {
    if |more| > MAX_SSE_EVENT_BYTES || |data| > MAX_SSE_EVENT_BYTES - |more| then None else Some(data + more)
  }

  /** Another data line: a newline goes before it unless nothing has been gathered. */
  function GatherLine(data: string, more: string): Option<string> {
    var parted := if data == "" then Some("") else Gather(data, "\n");
    if parted.None? then None else Gather(parted.value, more)
  }

  function DropEnds(raw: string): string {
    if raw != "" && (raw[|raw| - 1] == '\r' || raw[|raw| - 1] == '\n') then DropEnds(raw[..|raw| - 1]) else raw
  }

  function DataOf(text: string): Option<string> {
    if "data:" <= text then Some(if "data: " <= text then text[6..] else text[5..]) else None
  }

  function ApplyLine(decode: Decoder, s: State, raw: string): (r: Option<State>)
    requires Sound(s)
    ensures r.Some? ==> Sound(r.value)
  {
    var text := DropEnds(raw);
    if text == "" then Dispatch(decode, s)
    else if DataOf(text).None? then Some(s)
    else
      var data := GatherLine(s.data, DataOf(text).value);
      if data.None? then None else Some(s.(data := data.value))
  }

  /** A line holds no NUL and is, with its newline, no longer than the limit. */
  predicate LineFits(raw: string) {
    '\0' !in raw && |raw| < MAX_SSE_EVENT_BYTES
  }

  predicate TailFits(tail: string) {
    '\0' !in tail && |tail| <= MAX_SSE_EVENT_BYTES
  }

  function ApplyLines(decode: Decoder, lines: seq<string>): (r: Option<State>)
    ensures r.Some? ==> Sound(r.value)
  {
    if lines == [] then Some(State(EMPTY, ""))
    else
      var before := ApplyLines(decode, lines[..|lines| - 1]);
      if before.None? || !LineFits(lines[|lines| - 1]) then None
      else ApplyLine(decode, before.value, lines[|lines| - 1])
  }

  /** The bytes so far can be fed without an error. */
  predicate Accepts(decode: Decoder, bytes: string) {
    |bytes| <= MAX_RESPONSE_BYTES && TailFits(Tail(bytes)) && ApplyLines(decode, Lines(bytes)).Some?
  }

  /** Every call has an id and a name. */
  predicate CallsComplete(calls: seq<ToolCall>) {
    forall c | c in calls :: c.id != "" && c.name != ""
  }

  /** A reply is good when the response was completed and nothing failed; an open block is then closed. */
  function Conclude(r: Reply): Option<Reply> {
    if r.terminal && r.completed && !r.failed && CallsComplete(r.table.calls) then Some(r.(text := Close(r.text)))
    else None
  }

  /** The meaning of a whole stream: the lines, the unfinished line, the event not yet dispatched, the verdict. */
  function Parse(decode: Decoder, bytes: string): Option<Reply> {
    if !Accepts(decode, bytes) then None
    else
      var s := ApplyLines(decode, Lines(bytes)).value;
      var all := if Tail(bytes) == "" then Some(s) else ApplyLine(decode, s, Tail(bytes));
      var last := if all.None? then None else Dispatch(decode, all.value);
      if last.None? then None else Conclude(last.value.reply)
  }

  // ----- failure is final -----

  lemma {:induction false} FailureStays(decode: Decoder, lines: seq<string>, more: seq<string>)
    requires lines <= more && ApplyLines(decode, lines).None?
    ensures ApplyLines(decode, more).None?
  {
    if lines != more {
      FailureStays(decode, lines, more[..|more| - 1]);
    }
  }

  /** The unfinished line goes on, or becomes the start of the next complete one. */
  lemma {:induction false} TailGoesOn(bytes: string, more: string)
    ensures Lines(bytes + more) == Lines(bytes) ==> Tail(bytes) <= Tail(bytes + more)
    ensures Lines(bytes) <= Lines(bytes + more)
    ensures |Lines(bytes + more)| > |Lines(bytes)| ==> Tail(bytes) <= Lines(bytes + more)[|Lines(bytes)|]
  {
    if more == "" {
      assert bytes + more == bytes;
    } else {
      var front := more[..|more| - 1];
      TailGoesOn(bytes, front);
      assert bytes + more == (bytes + front) + [more[|more| - 1]];
      OneMore(bytes + front, more[|more| - 1]);
    }
  }

  lemma {:induction false} MisfitStays(decode: Decoder, lines: seq<string>, i: nat)
    requires i < |lines| && !LineFits(lines[i])
    ensures ApplyLines(decode, lines).None?
  {
    if i < |lines| - 1 {
      MisfitStays(decode, lines[..|lines| - 1], i);
    }
  }

  lemma RefusalStays(decode: Decoder, bytes: string, more: string)
    requires !Accepts(decode, bytes)
    ensures !Accepts(decode, bytes + more)
  {
    hide ApplyLines;
    if |bytes| <= MAX_RESPONSE_BYTES {
      TailGoesOn(bytes, more);
      if ApplyLines(decode, Lines(bytes)).None? {
        FailureStays(decode, Lines(bytes), Lines(bytes + more));
      } else if |Lines(bytes + more)| > |Lines(bytes)| {
        var line := Lines(bytes + more)[|Lines(bytes)|];
        assert !LineFits(line) by { assert line[..|Tail(bytes)|] == Tail(bytes); }
        MisfitStays(decode, Lines(bytes + more), |Lines(bytes)|);
      } else {
        assert Tail(bytes + more)[..|Tail(bytes)|] == Tail(bytes);
      }
    }
  }

  // ----- thinking blocks -----

  lemma SummarizeFaithful(t: Transcript, text: string)
    requires Faithful(t)
    ensures Faithful(Summarize(t, text))
  {
    ThinkFaithful(t, text);
    ThinkFaithful(t, Strip(text));
  }

  lemma EventFaithful(r: Reply, e: Event)
    requires Bound(r.table) && Faithful(r.text)
    ensures var r' := ApplyEvent(r, e); r'.Some? ==> Faithful(r'.value.text)
  {
    hide Faithful, Summarize, Think, Say, Close, Upsert, Argue, MergeItems, Sources, JoinParts;
    match e {
      case TextDelta(text) => SayFaithful(r.text, text.GetOr(""));
      case SummaryDelta(text) => SummarizeFaithful(r.text, text.GetOr(""));
      case SummaryDone(text) => SummarizeFaithful(r.text, text.GetOr(""));
      case ItemDone(_, item) =>
        if item.Some? && item.value.Reasoning? {
          SummarizeFaithful(r.text, JoinParts(item.value.summary));
          CloseFaithful(if r.text.thinking then r.text else Summarize(r.text, JoinParts(item.value.summary)));
        }
      case _ =>
    }
  }

  lemma DispatchFaithful(decode: Decoder, s: State)
    requires Sound(s) && Faithful(s.reply.text)
    ensures var r := Dispatch(decode, s); r.Some? ==> Faithful(r.value.reply.text)
  {
    hide ApplyEvent, Faithful;
    if s.data != "" && s.data != "[DONE]" && decode(s.data).Some? {
      EventFaithful(s.reply, decode(s.data).value);
    }
  }

  lemma LineFaithful(decode: Decoder, s: State, raw: string)
    requires Sound(s) && Faithful(s.reply.text)
    ensures var r := ApplyLine(decode, s, raw); r.Some? ==> Faithful(r.value.reply.text)
  {
    hide Dispatch, Faithful, GatherLine, DataOf, DropEnds;
    DispatchFaithful(decode, s);
  }

  lemma {:induction false} LinesFaithful(decode: Decoder, lines: seq<string>)
    ensures var r := ApplyLines(decode, lines); r.Some? ==> Faithful(r.value.reply.text)
  {
    hide ApplyLine;
    if lines != [] && ApplyLines(decode, lines).Some? {
      LinesFaithful(decode, lines[..|lines| - 1]);
      LineFaithful(decode, ApplyLines(decode, lines[..|lines| - 1]).value, lines[|lines| - 1]);
    }
  }

  /** On every successful stream the markers alternate and end closed, the content is what the callback got, and
      every call has an id and a name. */
  lemma GoodReplies(decode: Decoder, bytes: string)
    requires Parse(decode, bytes).Some?
    ensures var r := Parse(decode, bytes).value;
            && r.text.content == Rendered(r.text.delivered) && Bracketed(r.text.delivered, false) && !r.text.thinking
            && r.completed && !r.failed && CallsComplete(r.table.calls)
  {
    hide ApplyLine, ApplyLines, Dispatch, Close;
    LinesFaithful(decode, Lines(bytes));
    var s := ApplyLines(decode, Lines(bytes)).value;
    LineFaithful(decode, s, Tail(bytes));
    var all := if Tail(bytes) == "" then s else ApplyLine(decode, s, Tail(bytes)).value;
    DispatchFaithful(decode, all);
    CloseFaithful(Dispatch(decode, all).value.reply.text);
  }

  // ----- the events of a stream -----

  /** The data of every event so far, and the data gathered for the next. */
  datatype Gathering = Gathering(events: seq<string>, data: string)

  function Dispatched(g: Gathering): Gathering {
    if g.data == "" then g else Gathering(g.events + [g.data], "")
  }

  function GatherText(g: Gathering, raw: string): Option<Gathering> {
    var text := DropEnds(raw);
    if text == "" then Some(Dispatched(g))
    else if DataOf(text).None? then Some(g)
    else
      var data := GatherLine(g.data, DataOf(text).value);
      if data.None? then None else Some(g.(data := data.value))
  }

  function GatherLines(lines: seq<string>): Option<Gathering> {
    if lines == [] then Some(Gathering([], ""))
    else
      var before := GatherLines(lines[..|lines| - 1]);
      if before.None? || !LineFits(lines[|lines| - 1]) then None else GatherText(before.value, lines[|lines| - 1])
  }

  /** The data of the events of a whole stream; None when a limit or a NUL refuses it. */
  function Datas(bytes: string): Option<seq<string>> {
    var lines := GatherLines(Lines(bytes));
    if |bytes| > MAX_RESPONSE_BYTES || !TailFits(Tail(bytes)) || lines.None? then None
    else
      var all := if Tail(bytes) == "" then lines else GatherText(lines.value, Tail(bytes));
      if all.None? then None else Some(Dispatched(all.value).events)
  }

  function ApplyData(decode: Decoder, r: Reply, data: string): (s: Option<Reply>)
    requires Bound(r.table)
    ensures s.Some? ==> Bound(s.value.table)
  {
    if data == "[DONE]" then Some(r.(terminal := true))
    else
      var event := decode(data);
      if event.None? then None else ApplyEvent(r, event.value)
  }

  function ApplyDatas(decode: Decoder, datas: seq<string>): (r: Option<Reply>)
    ensures r.Some? ==> Bound(r.value.table)
  {
    if datas == [] then Some(EMPTY)
    else
      var before := ApplyDatas(decode, datas[..|datas| - 1]);
      if before.None? then None else ApplyData(decode, before.value, datas[|datas| - 1])
  }

  /** What a gathering means. */
  function Combine(decode: Decoder, g: Option<Gathering>): Option<State> {
    if g.None? then None
    else
      var r := ApplyDatas(decode, g.value.events);
      if r.None? then None else Some(State(r.value, g.value.data))
  }

  lemma DispatchCombines(decode: Decoder, g: Gathering)
    ensures var s := Combine(decode, Some(g));
            Combine(decode, Some(Dispatched(g))) == if s.None? then None else Dispatch(decode, s.value)
  {
    hide ApplyEvent;
    if g.data != "" {
      var events := g.events + [g.data];
      assert events[..|events| - 1] == g.events;
    }
  }

  lemma TextCombines(decode: Decoder, g: Gathering, raw: string)
    ensures var s := Combine(decode, Some(g));
            Combine(decode, GatherText(g, raw)) == if s.None? then None else ApplyLine(decode, s.value, raw)
  {
    hide ApplyDatas, Dispatched, Dispatch, DropEnds, DataOf, GatherLine;
    DispatchCombines(decode, g);
  }

  lemma {:induction false} LinesCombine(decode: Decoder, lines: seq<string>)
    ensures ApplyLines(decode, lines) == Combine(decode, GatherLines(lines))
  {
    if lines != [] {
      hide Combine, GatherText, ApplyLine;
      var before := GatherLines(lines[..|lines| - 1]);
      LinesCombine(decode, lines[..|lines| - 1]);
      CombineNone(decode);
      if before.Some? { TextCombines(decode, before.value, lines[|lines| - 1]); }
    } else {
      assert ApplyDatas(decode, []) == Some(EMPTY);
    }
  }

  lemma CombineNone(decode: Decoder)
    ensures Combine(decode, None).None?
  {
  }

  /** A stream means the fold of its events, and nothing else. */
  lemma ParseIsFold(decode: Decoder, bytes: string)
    ensures var datas := Datas(bytes);
            var r := if datas.None? then None else ApplyDatas(decode, datas.value);
            Parse(decode, bytes) == if r.None? then None else Conclude(r.value)
  {
    hide ApplyLines, GatherLines, ApplyLine, GatherText, Dispatch, Dispatched, ApplyDatas, Conclude;
    LinesCombine(decode, Lines(bytes));
    var lines := GatherLines(Lines(bytes));
    if lines.Some? {
      TextCombines(decode, lines.value, Tail(bytes));
      var all := if Tail(bytes) == "" then lines else GatherText(lines.value, Tail(bytes));
      if all.Some? {
        DispatchCombines(decode, all.value);
        assert Dispatched(all.value).data == "" by { DispatchedData(all.value); }
      }
    }
  }

  lemma DispatchedData(g: Gathering)
    ensures Dispatched(g).data == ""
  {
  }

  // ----- reassembly, in terms of streams -----

  /** An entry of a completed response's output: a call said again as a whole, or another item. */
  datatype Entry = SaidAgain(k: nat, arguments: Option<string>) | Besides(item: Item)

  /** What a stream may bring: something about one of the calls, an event that has nothing to do with them, the
      completed response with its output, or the end mark. */
  datatype Happening = About(step: Step) | Aside(event: Event) | Complete(entries: seq<Entry>) | EndMark

  /** Items that are no calls; a message may not carry a phase that is no string. */
  predicate NoCall(item: Item) {
    !item.FunctionCall? && item != Message(BadPhase)
  }

  /** Events that leave the calls alone and cannot fail. */
  predicate Unrelated(e: Event) {
    match e
    case TextDelta(text) => text.Some?
    case SummaryDelta(text) => text.Some?
    case SummaryDone(_) => true
    case ItemAdded(_, item) => item.Some? && !item.value.FunctionCall?
    case ItemDone(_, item) => item.Some? && NoCall(item.value)
    case Completed(ok, output) => ok && output.NoOutput?
    case RefusalDone(valid) => valid
    case Failed => true
    case OtherEvent => true
    case _ => false
  }

  /** The output lists a call under its own output index. */
  predicate InPlace(made: seq<Call>, entry: Entry, position: nat) {
    if entry.SaidAgain? then entry.k < |made| && made[entry.k].outputIndex == position else NoCall(entry.item)
  }

  predicate Allowed(made: seq<Call>, h: Happening) {
    match h
    case About(step) => step.k < |made|
    case Aside(event) => Unrelated(event)
    case Complete(entries) => forall p | 0 <= p < |entries| :: InPlace(made, entries[p], p)
    case EndMark => true
  }

  function EventOf(made: seq<Call>, step: Step): Event
    requires step.k < |made|
  {
    var c := made[step.k];
    match step
    case Announce(_, arguments) => ItemAdded(c.outputIndex, Some(FunctionCall(WholeItem(c, arguments))))
    case Again(_, arguments) => ItemDone(c.outputIndex, Some(FunctionCall(WholeItem(c, arguments))))
    case Delta(_, via, text) => ArgumentsDelta(SomeKeys(c, via), Some(text))
    case Done(_, via, text) => ArgumentsDone(SomeKeys(c, via), Some(text))
  }

  function ItemOf(made: seq<Call>, entry: Entry): Option<Item> {
    match entry
    case SaidAgain(k, arguments) => if k < |made| then Some(FunctionCall(WholeItem(made[k], arguments))) else None
    case Besides(item) => Some(item)
  }

  function ItemsOf(made: seq<Call>, entries: seq<Entry>): (items: seq<Option<Item>>)
    ensures |items| == |entries|
  {
    if entries == [] then [] else ItemsOf(made, entries[..|entries| - 1]) + [ItemOf(made, entries[|entries| - 1])]
  }

  /** The event that a happening is, except for the end mark. */
  function EventOfHappening(made: seq<Call>, h: Happening): Event
    requires Allowed(made, h) && !h.EndMark?
  {
    match h
    case About(step) => EventOf(made, step)
    case Aside(event) => event
    case Complete(entries) => Completed(true, Items(ItemsOf(made, entries)))
  }

  function AgainOf(entry: Entry): seq<Step> {
    if entry.SaidAgain? then [Again(entry.k, entry.arguments)] else []
  }

  function AgainSteps(entries: seq<Entry>): seq<Step> {
    if entries == [] then [] else AgainSteps(entries[..|entries| - 1]) + AgainOf(entries[|entries| - 1])
  }

  function StepsOf(h: Happening): seq<Step> {
    match h
    case About(step) => [step]
    case Complete(entries) => AgainSteps(entries)
    case _ => []
  }

  /** Everything that is said about the calls, in order. */
  function Steps(happenings: seq<Happening>): seq<Step> {
    if happenings == [] then [] else Steps(happenings[..|happenings| - 1]) + StepsOf(happenings[|happenings| - 1])
  }

  predicate AllAllowed(made: seq<Call>, happenings: seq<Happening>) {
    forall i | 0 <= i < |happenings| :: Allowed(made, happenings[i])
  }

  predicate Sensible(made: seq<Call>, happenings: seq<Happening>) {
    AllAllowed(made, happenings) && Orderly(made, Steps(happenings)) && |Order(Steps(happenings))| <= INT_MAX
  }

  function ApplyHappening(made: seq<Call>, r: Reply, h: Happening): (s: Option<Reply>)
    requires Bound(r.table) && Allowed(made, h)
    ensures s.Some? ==> Bound(s.value.table)
  {
    if h.EndMark? then Some(r.(terminal := true)) else ApplyEvent(r, EventOfHappening(made, h))
  }

  function ApplyAll(made: seq<Call>, happenings: seq<Happening>): (r: Option<Reply>)
    requires AllAllowed(made, happenings)
    ensures r.Some? ==> Bound(r.value.table)
  {
    if happenings == [] then Some(EMPTY)
    else
      var before := ApplyAll(made, happenings[..|happenings| - 1]);
      if before.None? then None else ApplyHappening(made, before.value, happenings[|happenings| - 1])
  }

  lemma EventStep(r: Reply, made: seq<Call>, step: Step)
    requires Bound(r.table) && step.k < |made|
    ensures ApplyEvent(r, EventOf(made, step)) == WithTable(r, Take(r.table, made, step))
  {
    hide Upsert, Argue;
  }

  lemma UnrelatedEvent(r: Reply, e: Event)
    requires Bound(r.table) && Unrelated(e)
    ensures ApplyEvent(r, e).Some? && ApplyEvent(r, e).value.table == r.table
  {
  }

  lemma {:induction false} OrderlyBefore(made: seq<Call>, before: seq<Step>, after: seq<Step>)
    requires Orderly(made, before + after)
    ensures Orderly(made, before) && |Order(before)| <= |Order(before + after)|
  {
    if after == [] {
      assert before + after == before;
    } else {
      var all := before + after;
      assert all[..|all| - 1] == before + after[..|after| - 1];
      OrderlyBefore(made, before, after[..|after| - 1]);
    }
  }

  /** One entry of the output. */
  lemma EntryHolds(t: CallTable, phase: Option<string>, made: seq<Call>, trace: seq<Step>, entry: Entry, position: nat)
    requires Holds(t, made, trace) && Bound(t) && Distinct(made) && InPlace(made, entry, position)
    requires Orderly(made, trace + AgainOf(entry)) && |Order(trace + AgainOf(entry))| <= INT_MAX
    ensures var m := MergeOne(t, phase, position, ItemOf(made, entry));
            m.Some? && Holds(m.value.0, made, trace + AgainOf(entry))
  {
    hide Holds, Distinct, Orderly, Order, Upsert;
    if entry.SaidAgain? {
      StepHolds(t, made, trace, Again(entry.k, entry.arguments));
    } else {
      assert trace + [] == trace;
    }
  }

  lemma MergeUnfold(t: CallTable, phase: Option<string>, made: seq<Call>, entries: seq<Entry>)
    requires Bound(t) && entries != []
    ensures var n := |entries| - 1;
            var before := MergeItems(t, phase, ItemsOf(made, entries[..n]));
            MergeItems(t, phase, ItemsOf(made, entries)) ==
            if before.None? then None else MergeOne(before.value.0, before.value.1, n, ItemOf(made, entries[n]))
  {
    hide MergeOne, ItemOf;
    var items := ItemsOf(made, entries);
    assert items[..|items| - 1] == ItemsOf(made, entries[..|entries| - 1]);
  }

  /** Merging the output of the completed response says each of its calls again. */
  lemma {:induction false} MergeHolds(t: CallTable, phase: Option<string>, made: seq<Call>, trace: seq<Step>,
                                      entries: seq<Entry>)
    requires Holds(t, made, trace) && Bound(t) && Distinct(made)
    requires forall p | 0 <= p < |entries| :: InPlace(made, entries[p], p)
    requires Orderly(made, trace + AgainSteps(entries)) && |Order(trace + AgainSteps(entries))| <= INT_MAX
    ensures var m := MergeItems(t, phase, ItemsOf(made, entries));
            m.Some? && Holds(m.value.0, made, trace + AgainSteps(entries))
  {
    hide Holds, Distinct, Orderly, Order, Bound, InPlace, MergeOne, MergeItems, ItemOf, ItemsOf, AgainOf;
    if entries == [] {
      assert trace + [] == trace && ItemsOf(made, []) == [] by { NoItems(made); }
      NothingMerged(t, phase);
    } else {
      var n := |entries| - 1;
      var front, steps := entries[..n], AgainSteps(entries[..n]);
      assert trace + AgainSteps(entries) == (trace + steps) + AgainOf(entries[n]);
      OrderlyBefore(made, trace + steps, AgainOf(entries[n]));
      MergeHolds(t, phase, made, trace, front);
      MergeUnfold(t, phase, made, entries);
      var before := MergeItems(t, phase, ItemsOf(made, front)).value;
      EntryHolds(before.0, before.1, made, trace + steps, entries[n], n);
    }
  }

  lemma NoItems(made: seq<Call>)
    ensures ItemsOf(made, []) == []
  {
  }

  /** One happening keeps the table in step with what is said. */
  lemma HappeningHolds(r: Reply, made: seq<Call>, trace: seq<Step>, h: Happening)
    requires Holds(r.table, made, trace) && Bound(r.table) && Distinct(made) && Allowed(made, h)
    requires Orderly(made, trace + StepsOf(h)) && |Order(trace + StepsOf(h))| <= INT_MAX
    ensures var s := ApplyHappening(made, r, h);
            s.Some? && Holds(s.value.table, made, trace + StepsOf(h))
  {
    hide Holds, Distinct, Orderly, Order, MergeItems, ItemsOf, Sources, Unrelated, EventOf, AgainSteps, Take;
    match h {
      case About(step) =>
        EventStep(r, made, step);
        StepHolds(r.table, made, trace, step);
      case Aside(event) =>
        UnrelatedEvent(r, event);
        assert trace + [] == trace;
      case Complete(entries) => MergeHolds(r.table, r.phase, made, trace, entries);
      case EndMark => assert trace + [] == trace;
    }
  }

  /** The calls of the reply are those of the steps, whatever else happens in between. */
  lemma {:induction false} CallsOfStream(made: seq<Call>, happenings: seq<Happening>)
    requires Distinct(made) && Sensible(made, happenings)
    ensures ApplyAll(made, happenings).Some?
    ensures Holds(ApplyAll(made, happenings).value.table, made, Steps(happenings))
    ensures TakeAll(made, Steps(happenings)) == Some(ApplyAll(made, happenings).value.table)
  {
    hide ApplyHappening, TakeAll, Orderly, Distinct, StepsOf, Order, Arguments;
    if happenings != [] {
      var before, h := happenings[..|happenings| - 1], happenings[|happenings| - 1];
      OrderlyBefore(made, Steps(before), StepsOf(h));
      CallsOfStream(made, before);
      HappeningHolds(ApplyAll(made, before).value, made, Steps(before), h);
    } else {
      NothingHolds(made);
    }
    Reassembles(made, Steps(happenings));
    SameTable(ApplyAll(made, happenings).value.table, TakeAll(made, Steps(happenings)).value, made, Steps(happenings));
  }

  lemma NothingHolds(made: seq<Call>)
    ensures Holds(NO_CALLS, made, [])
  {
  }

  /** The steps determine the table. */
  lemma SameTable(t: CallTable, u: CallTable, made: seq<Call>, trace: seq<Step>)
    requires Holds(t, made, trace) && Holds(u, made, trace)
    ensures t == u
  {
    hide Order, Arguments;
    assert t.calls == u.calls && t.bindings == u.bindings;
  }

  // ----- which streams end well -----

  predicate Completes(h: Happening) {
    h.Complete? || (h.Aside? && h.event.Completed?)
  }

  predicate Fails(h: Happening) {
    h.Aside? && h.event.Failed?
  }

  lemma Flags(r: Reply, made: seq<Call>, h: Happening)
    requires Bound(r.table) && Allowed(made, h) && ApplyHappening(made, r, h).Some?
    ensures var s := ApplyHappening(made, r, h).value;
            && s.completed == (r.completed || Completes(h)) && s.failed == (r.failed || Fails(h))
            && s.terminal == (r.terminal || Completes(h) || Fails(h) || h.EndMark?)
  {
    hide ApplyEvent, EventOf, Take, Unrelated, ItemsOf, InPlace;
    match h {
      case About(step) => EventStep(r, made, step);
      case Aside(event) => EventFlags(r, event);
      case Complete(entries) => EventFlags(r, EventOfHappening(made, h));
      case EndMark =>
    }
  }

  lemma EventFlags(r: Reply, e: Event)
    requires Bound(r.table) && ApplyEvent(r, e).Some?
    ensures var s := ApplyEvent(r, e).value;
            && s.completed == (r.completed || e.Completed?) && s.failed == (r.failed || e.Failed?)
            && s.terminal == (r.terminal || e.Completed? || e.Failed?)
  {
    hide Upsert, Argue, MergeItems, Summarize, Say, Close, Sources, SetPhase, JoinParts;
  }

  lemma {:induction false} AllFlags(made: seq<Call>, happenings: seq<Happening>)
    requires AllAllowed(made, happenings) && ApplyAll(made, happenings).Some?
    ensures var r := ApplyAll(made, happenings).value;
            && (r.completed <==> exists h :: h in happenings && Completes(h))
            && (r.failed <==> exists h :: h in happenings && Fails(h))
            && (r.completed ==> r.terminal)
  {
    hide ApplyHappening, Allowed;
    if happenings != [] {
      var before, h := happenings[..|happenings| - 1], happenings[|happenings| - 1];
      AllFlags(made, before);
      Flags(ApplyAll(made, before).value, made, h);
      assert happenings == before + [h];
    }
  }

  lemma CompleteCalls(t: CallTable, made: seq<Call>, trace: seq<Step>)
    requires Holds(t, made, trace) && Distinct(made)
    ensures CallsComplete(t.calls) <==> forall k | k in Order(trace) :: k < |made| && made[k].name != ""
  {
    hide Order, Arguments;
    var order := Order(trace);
    forall i | 0 <= i < |order| ensures t.calls[i].id != "" && (t.calls[i].name != "" <==> made[order[i]].name != "") {}
    if CallsComplete(t.calls) {
      forall k | k in order ensures k < |made| && made[k].name != "" {
        var i :| 0 <= i < |order| && order[i] == k;
        assert t.calls[i] in t.calls;
      }
    } else {
      var c :| c in t.calls && !(c.id != "" && c.name != "");
      var i :| 0 <= i < |t.calls| && t.calls[i] == c;
      assert order[i] in order;
    }
  }

  /** A stream whose events are these happenings. */
  predicate Brings(decode: Decoder, datas: seq<string>, made: seq<Call>, happenings: seq<Happening>)
    requires AllAllowed(made, happenings)
  {
    && |datas| == |happenings|
    && forall i | 0 <= i < |datas| :: DataSays(decode, datas[i], made, happenings[i])
  }

  predicate DataSays(decode: Decoder, data: string, made: seq<Call>, h: Happening)
    requires Allowed(made, h)
  {
    if h.EndMark? then data == "[DONE]" else data != "[DONE]" && decode(data) == Some(EventOfHappening(made, h))
  }

  lemma {:induction false} BringsAll(decode: Decoder, datas: seq<string>, made: seq<Call>, happenings: seq<Happening>)
    requires AllAllowed(made, happenings) && Brings(decode, datas, made, happenings)
    ensures ApplyDatas(decode, datas) == ApplyAll(made, happenings)
  {
    hide ApplyEvent, EventOfHappening, Allowed;
    if datas != [] {
      BringsAll(decode, datas[..|datas| - 1], made, happenings[..|happenings| - 1]);
    }
  }

  /** Tool calls of whole streams: a stream within the limits whose events are these happenings, in any interleaving,
      is parsed with success exactly when it is completed, does not fail, and names every announced call; its reply
      then has one entry per announced call, in order, with the arguments that the events of that call alone add up
      to. */
  lemma ToolCallsOfStream(decode: Decoder, bytes: string, made: seq<Call>, happenings: seq<Happening>)
    requires Distinct(made) && Sensible(made, happenings)
    requires Datas(bytes).Some? && Brings(decode, Datas(bytes).value, made, happenings)
    ensures Parse(decode, bytes).Some? <==>
              && (exists h :: h in happenings && Completes(h))
              && !(exists h :: h in happenings && Fails(h))
              && forall k | k in Order(Steps(happenings)) :: k < |made| && made[k].name != ""
    ensures Parse(decode, bytes).Some? ==> Holds(Parse(decode, bytes).value.table, made, Steps(happenings))
  {
    hide Datas, Parse, ApplyDatas, ApplyAll, Brings, Holds, Order, Steps, Sensible, Distinct, CallsComplete;
    ParseIsFold(decode, bytes);
    SensibleAllows(made, happenings);
    BringsAll(decode, Datas(bytes).value, made, happenings);
    CallsOfStream(made, happenings);
    AllFlags(made, happenings);
    CompleteCalls(ApplyAll(made, happenings).value.table, made, Steps(happenings));
  }

  lemma SensibleAllows(made: seq<Call>, happenings: seq<Happening>)
    requires Sensible(made, happenings)
    ensures AllAllowed(made, happenings)
  {
  }
}
