/**
 The Codex stream parser: a growing line buffer filled byte by byte, data gathered line by line,
 and a response changed event by event. Proved against CodexReply.
 */
module CodexStream {
  import opened Wrappers
  import opened LineFraming
  import opened ThinkingBlocks
  import opened CodexCalls
  import opened CodexReply

  const FIRST_CAPACITY := 512

  // ----- summary text -----

  /** strstr, as a test. */
  method HasPart(text: string, part: string) returns (has: bool)
    requires part != ""
    ensures has == Contains(text, part)
  {
    var i := 0;
    while i < |text|
      invariant 0 <= i <= |text|
      invariant Contains(text, part) == Contains(text[i..], part)
    {
      if part <= text[i..] { return true; }
      assert text[i..][1..] == text[i + 1..];
      i := i + 1;
    }
    return false;
  }

  /** One step at the read position: how much is read, and what is kept of it. */
  function Kept(rest: string): (string, nat)
    requires rest != ""
  {
    if "<!--" <= rest then ("", 4) else if "-->" <= rest then ("", 3) else ([rest[0]], 1)
  }

  lemma KeptStrips(done: string, text: string, source: nat)
    requires source < |text|
    ensures var (kept, read) := Kept(text[source..]);
            source + read <= |text| && done + Strip(text[source..]) == done + kept + Strip(text[source + read..])
  {
    var rest := text[source..];
    var (kept, read) := Kept(rest);
    assert |"<!--"| == 4 && |"-->"| == 3;
    assert rest[read..] == text[source + read..];
  }

  /** Drops the comment markers in place: the write position never passes the read position. */
  method StripInPlace(clean: array<char>) returns (length: nat)
    modifies clean
    ensures length <= clean.Length && clean[..length] == Strip(old(clean[..]))
  {
    hide Strip;
    var source, target := 0, 0;
    ghost var text := clean[..];
    assert text[0..] == text;
    while source < clean.Length
      invariant 0 <= target <= source <= clean.Length
      invariant clean[source..] == text[source..]
      invariant clean[..target] + Strip(text[source..]) == Strip(text)
    {
      ghost var done, rest := clean[..target], text[source..];
      KeptStrips(done, text, source);
      if "<!--" <= clean[source..] {
        assert clean[source + 4..] == clean[source..][4..] == rest[4..] == text[source + 4..];
        assert Kept(rest) == ("", 4) && done + "" == done;
        source := source + 4;
      } else if "-->" <= clean[source..] {
        assert clean[source + 3..] == clean[source..][3..] == rest[3..] == text[source + 3..];
        assert Kept(rest) == ("", 3) && done + "" == done;
        source := source + 3;
      } else {
        assert clean[source + 1..] == clean[source..][1..] == rest[1..] == text[source + 1..];
        assert Kept(rest) == ([rest[0]], 1) && clean[source] == clean[source..][0] == rest[0];
        KeepOne(clean, source, target);
        source, target := source + 1, target + 1;
      }
    }
    StripNothing();
    return target;
  }

  method KeepOne(clean: array<char>, source: nat, target: nat)
    requires target <= source < clean.Length
    modifies clean
    ensures clean[..target + 1] == old(clean[..target]) + [old(clean[source])]
    ensures clean[source + 1..] == old(clean[source + 1..])
  {
    clean[target] := clean[source];
  }

  lemma StripNothing()
    ensures Strip("") == ""
  {
  }

  /** The loop over isspace. */
  method IsBlank(text: string) returns (blank: bool)
    ensures blank == Blank(text)
  {
    var i := 0;
    while i < |text| && IsSpace(text[i])
      invariant 0 <= i <= |text| && Blank(text[..i])
    {
      i := i + 1;
    }
    if i < |text| {
      assert text[i] in text;
      return false;
    }
    assert text[..i] == text;
    return true;
  }

  /** reasoning_summary_join; an empty result stands for NULL. */
  method JoinSummary(parts: seq<string>) returns (joined: string)
    ensures joined == JoinParts(parts)
  {
    joined := "";
    var i := 0;
    while i < |parts|
      invariant 0 <= i <= |parts| && joined == JoinParts(parts[..i])
    {
      assert parts[..i + 1][..i] == parts[..i];
      if parts[i] != "" {
        joined := if joined == "" then parts[i] else joined + "\n" + parts[i];
      }
      i := i + 1;
    }
    assert parts[..i] == parts;
  }

  class StreamParser {
    const decode: Decoder
    // the response under construction
    var content: string
    var toolCalls: seq<ToolCall>
    var phase: Option<string>
    var providerState: seq<string>
    // the parser
    var calls: seq<Binding>
    var thinkingOpen: bool
    var delivered: seq<Chunk>
    var terminalSeen: bool
    var completed: bool
    var failed: bool
    var summaryDeltasSeen: bool
    var line: array<char>
    var lineLen: nat
    var eventData: string
    var receivedBytes: nat
    ghost var fed: string      // every byte so far

    function Text(): Transcript
      reads this`content, this`thinkingOpen, this`delivered
    {
      Transcript(content, thinkingOpen, delivered)
    }

    function Table(): CallTable
      reads this`toolCalls, this`calls
    {
      CallTable(toolCalls, calls)
    }

    function Response(): Reply
      reads this`content, this`thinkingOpen, this`delivered, this`toolCalls, this`calls, this`phase, this`providerState
      reads this`terminalSeen, this`completed, this`failed, this`summaryDeltasSeen
    {
      Reply(Text(), Table(), phase, providerState, terminalSeen, completed, failed, summaryDeltasSeen)
    }

    // ----- the function calls -----

    /** find_stream_call; -1 is none. */
    method FindStreamCall(keys: Keys) returns (index: int)
      requires Bound(Table())
      ensures index == (var r := Find(Table(), 0, keys); if r.Some? then r.value else -1)
    {
      var i := 0;
      while i < |calls|
        invariant 0 <= i <= |calls|
        invariant Find(Table(), 0, keys) == Find(Table(), i, keys)
      {
        if Matches(Table(), i, keys) { return i; }
        i := i + 1;
      }
      return -1;
    }

    /** add_response_tool_call: a new last slot. */
    method AddResponseToolCall(id: Option<string>, name: Option<string>, arguments: Option<string>) returns (ok: bool)
      modifies this`toolCalls
      ensures ok <==> |old(toolCalls)| < INT_MAX
      ensures ok ==> toolCalls == old(toolCalls) + [ToolCall(id.GetOr(""), name.GetOr(""), arguments.GetOr(""))]
      ensures !ok ==> toolCalls == old(toolCalls)
    {
      if |toolCalls| >= INT_MAX { return false; }
      toolCalls := toolCalls + [ToolCall(id.GetOr(""), name.GetOr(""), arguments.GetOr(""))];
      return true;
    }

    method AddStreamCall(keys: Keys, name: Option<string>, arguments: Option<string>) returns (index: int)
      requires Bound(Table())
      modifies this`toolCalls, this`calls
      ensures index == if Add(old(Table()), keys, name, arguments).Some? then |old(calls)| else -1
      ensures index >= 0 ==> Add(old(Table()), keys, name, arguments) == Some(Table())
    {
      if |calls| >= INT_MAX { return -1; }
      var slot := |toolCalls|;
      var ok := AddResponseToolCall(keys.callId, name, arguments);
      if !ok { return -1; }
      calls := calls + [Binding(keys.outputIndex, slot, keys.itemId)];
      return |calls| - 1;
    }

    method UpsertFunctionItem(outputIndex: int, item: CallItem) returns (ok: bool)
      requires Bound(Table())
      modifies this`toolCalls, this`calls
      ensures var r := Upsert(old(Table()), outputIndex, item);
              && (ok <==> r.Some?)
              && (ok ==> r == Some(Table()))
    {
      hide Find;
      var keys := Keys(outputIndex, item.itemId, item.callId);
      var index := FindStreamCall(keys);
      if index < 0 {
        index := AddStreamCall(keys, item.name, item.arguments);
        return index >= 0;
      }
      var bound := calls[index];
      if outputIndex >= 0 && bound.outputIndex >= 0 && bound.outputIndex != outputIndex { return false; }
      if bound.outputIndex < 0 { calls := calls[index := bound.(outputIndex := outputIndex)]; }
      if !Agrees(bound.itemId.GetOr(""), item.itemId) { return false; }
      if item.itemId.Some? { calls := calls[index := calls[index].(itemId := item.itemId)]; }
      var call := toolCalls[bound.slot];
      if !Agrees(call.id, item.callId) || !Agrees(call.name, item.name) { return false; }
      assert calls == old(calls)[index := calls[index]];
      var filled := ToolCall(item.callId.GetOr(call.id), item.name.GetOr(call.name),
                             item.arguments.GetOr(call.arguments));
      toolCalls := toolCalls[bound.slot := filled];
      return true;
    }

    /** parse_argument_delta, once it has its value. */
    method ParseArgumentDelta(keys: Keys, value: string, done: bool) returns (ok: bool)
      requires Bound(Table())
      modifies this`toolCalls, this`calls
      ensures var r := Argue(old(Table()), keys, value, done);
              && (ok <==> r.Some?)
              && (ok ==> r == Some(Table()))
    {
      hide Find;
      var index := FindStreamCall(keys);
      if index < 0 {
        index := AddStreamCall(keys, None, None);
        if index < 0 { return false; }
      }
      var slot := calls[index].slot;
      var arguments := if done then value else toolCalls[slot].arguments + value;
      toolCalls := toolCalls[slot := toolCalls[slot].(arguments := arguments)];
      return true;
    }

    /** capture_message_phase */
    method CapturePhase(p: Phase) returns (ok: bool)
      modifies this`phase
      ensures ok <==> !p.BadPhase?
      ensures ok ==> SetPhase(old(phase), p) == Some(phase)
    {
      if p.BadPhase? { return false; }
      if p.Named? { phase := Some(p.phase); }
      return true;
    }

    /** merge_completed_output */
    method MergeCompletedOutput(output: Output) returns (ok: bool)
      requires Bound(Table())
      modifies this`toolCalls, this`calls, this`phase, this`providerState
      ensures var r := Merge(old(Response()), output);
              && (ok <==> r.Some?)
              && (ok ==> r == Some(Response()))
    {
      hide MergeItems, Sources, Bound;
      if output.NoOutput? { return true; }
      if output.BadOutput? { return false; }
      var items, reasoning, i := output.items, [], 0;
      NothingMerged(Table(), phase);
      assert items[..0] == [];
      while i < |items|
        invariant 0 <= i <= |items| && Bound(Table())
        invariant MergeItems(old(Table()), old(phase), items[..i]) == Some((Table(), phase))
        invariant reasoning == Sources(items[..i]) && providerState == old(providerState)
      {
        MergeOneMore(old(Table()), old(phase), items, i);
        ok := MergeItem(i, items[i]);
        if !ok {
          MergeFailureStays(old(Table()), old(phase), items[..i + 1], items);
          return;
        }
        if items[i].value.Reasoning? {
          reasoning := reasoning + [items[i].value.source];
        } else {
          assert reasoning + [] == reasoning;
        }
        i := i + 1;
      }
      assert items[..i] == items;
      if |reasoning| > 0 { providerState := reasoning; }
      return true;
    }

    method MergeItem(index: nat, item: Option<Item>) returns (ok: bool)
      requires Bound(Table())
      modifies this`toolCalls, this`calls, this`phase
      ensures var r := MergeOne(old(Table()), old(phase), index, item);
              && (ok <==> r.Some?)
              && (ok ==> r == Some((Table(), phase)))
    {
      hide Upsert;
      if item.None? { return false; }
      ok := true;
      if item.value.FunctionCall? {
        ok := UpsertFunctionItem(index, item.value.call);
      } else if item.value.Message? {
        ok := CapturePhase(item.value.phase);
      }
    }

    // ----- text -----

    method Put(chunk: Chunk)
      modifies this`content, this`delivered
      ensures Text() == Deliver(old(Text()), chunk, thinkingOpen)
    {
      content := content + chunk.Render();
      delivered := delivered + [chunk];
    }

    method EmitThinkingText(text: string)
      modifies this`content, this`delivered, this`thinkingOpen
      ensures Text() == Think(old(Text()), text)
    {
      if text == "" { return; }
      if !thinkingOpen {
        Put(ThinkOpen);
        thinkingOpen := true;
      }
      Put(Thought(text));
    }

    method CloseThinkingBlock()
      modifies this`content, this`delivered, this`thinkingOpen
      ensures Text() == Close(old(Text()))
    {
      if thinkingOpen {
        Put(ThinkClose);
        thinkingOpen := false;
      }
    }

    method EmitSummaryText(text: string)
      modifies this`content, this`delivered, this`thinkingOpen
      ensures Text() == Summarize(old(Text()), text)
    {
      var opens := HasPart(text, "<!--");
      var closes := HasPart(text, "-->");
      if !opens && !closes {
        EmitThinkingText(text);
        return;
      }
      var clean := new char[|text|];
      forall k | 0 <= k < |text| { clean[k] := text[k]; }
      assert clean[..] == text;
      var length := StripInPlace(clean);
      var stripped := clean[..length];
      var blank := IsBlank(stripped);
      if !blank { EmitThinkingText(stripped); }
    }

    // ----- events -----

    /** parse_stream_event for an event that could be read */
    method HandleEvent(e: Event) returns (ok: bool)
      requires Bound(Table())
      modifies this`content, this`delivered, this`thinkingOpen, this`toolCalls, this`calls, this`phase
      modifies this`providerState
      modifies this`terminalSeen, this`completed, this`failed, this`summaryDeltasSeen
      ensures var r := ApplyEvent(old(Response()), e);
              && (ok <==> r.Some?)
              && (ok ==> r == Some(Response()))
    {
      hide Summarize, Upsert, Argue, Merge, Bound, FinishReasoning;
      ok := true;
      match e {
        case TextDelta(_) => ok := HandleText(e);
        case SummaryDelta(_) => ok := HandleText(e);
        case SummaryDone(_) => ok := HandleText(e);
        case ItemAdded(index, item) =>
          if item.None? { return false; }
          if item.value.FunctionCall? { ok := UpsertFunctionItem(index, item.value.call); }
        case ItemDone(index, item) =>
          if item.None? { return false; }
          ok := HandleItemDone(index, item.value);
        case ArgumentsDelta(keys, value) =>
          if value.None? { return false; }
          ok := ParseArgumentDelta(keys, value.value, false);
        case ArgumentsDone(keys, value) =>
          if value.None? { return false; }
          ok := ParseArgumentDelta(keys, value.value, true);
        case Completed(good, output) =>
          terminalSeen, completed := true, good;
          if !good { return false; }
          ok := MergeCompletedOutput(output);
        case RefusalDone(valid) => ok := valid;
        case Failed => terminalSeen, failed := true, true;
        case OtherEvent =>
      }
    }

    /** The finished reasoning item: kept for the next request, and its block is closed. */
    method FinishReasoningItem(source: string, summary: seq<string>)
      modifies this`content, this`delivered, this`thinkingOpen, this`providerState, this`summaryDeltasSeen
      ensures Response() == FinishReasoning(old(Response()), source, summary)
    {
      hide Summarize, JoinParts;
      providerState := providerState + [source];
      if !thinkingOpen {
        var joined := JoinSummary(summary);
        EmitSummaryText(joined);
      }
      CloseThinkingBlock();
      summaryDeltasSeen := false;
    }

    method HandleText(e: Event) returns (ok: bool)
      requires e.TextDelta? || e.SummaryDelta? || e.SummaryDone?
      requires Bound(Table())
      modifies this`content, this`delivered, this`thinkingOpen, this`summaryDeltasSeen
      ensures var r := ApplyEvent(old(Response()), e);
              && (ok <==> r.Some?)
              && (ok ==> r == Some(Response()))
    {
      hide Summarize, Bound;
      if e.SummaryDone? {
        if !summaryDeltasSeen && e.text.Some? { EmitSummaryText(e.text.value); }
        return true;
      }
      if e.text.None? { return false; }
      if e.TextDelta? {
        CloseThinkingBlock();
        Put(Answer(e.text.value));
      } else {
        EmitSummaryText(e.text.value);
        summaryDeltasSeen := true;
      }
      return true;
    }

    method HandleItemDone(index: int, item: Item) returns (ok: bool)
      requires Bound(Table())
      modifies this`content, this`delivered, this`thinkingOpen, this`toolCalls, this`calls, this`phase
      modifies this`providerState
      modifies this`summaryDeltasSeen
      ensures var r := ApplyEvent(old(Response()), ItemDone(index, Some(item)));
              && (ok <==> r.Some?)
              && (ok ==> r == Some(Response()))
    {
      hide FinishReasoning, Upsert, Bound;
      ok := true;
      match item {
        case FunctionCall(call) => ok := UpsertFunctionItem(index, call);
        case Reasoning(source, summary) => FinishReasoningItem(source, summary);
        case Message(p) => ok := CapturePhase(p);
        case OtherItem =>
      }
    }

    // ----- lines -----

    function Gathered(): State
      reads this`content, this`thinkingOpen, this`delivered, this`toolCalls, this`calls, this`phase, this`providerState
      reads this`terminalSeen, this`completed, this`failed, this`summaryDeltasSeen, this`eventData
    {
      State(Response(), eventData)
    }

    /** stream_process_event */
    method ProcessEvent() returns (ok: bool)
      requires Bound(Table())
      modifies this`content, this`delivered, this`thinkingOpen, this`toolCalls, this`calls, this`phase
      modifies this`providerState
      modifies this`terminalSeen, this`completed, this`failed, this`summaryDeltasSeen, this`eventData
      ensures var r := Dispatch(decode, old(Gathered()));
              && (ok <==> r.Some?)
              && (ok ==> r == Some(Gathered()))
    {
      hide ApplyEvent, Bound;
      if eventData == "" { return true; }
      ok := true;
      if eventData == "[DONE]" {
        terminalSeen := true;
      } else {
        var event := decode(eventData);
        if event.None? { return false; }
        ok := HandleEvent(event.value);
      }
      eventData := "";
    }

    /** http_buffer_append to the event data */
    method AppendData(more: string) returns (ok: bool)
      modifies this`eventData
      ensures ok <==> Gather(old(eventData), more).Some?
      ensures ok ==> Gather(old(eventData), more) == Some(eventData)
    {
      if |more| > MAX_SSE_EVENT_BYTES || |eventData| > MAX_SSE_EVENT_BYTES - |more| { return false; }
      eventData := eventData + more;
      return true;
    }

    /** The loop that drops line ends, and the terminator. */
    method TerminateLine()
      requires lineLen < line.Length && '\0' !in line[..lineLen]
      modifies this`lineLen, line
      ensures lineLen <= old(lineLen) && CString(line[..]) == DropEnds(old(line[..lineLen]))
      ensures lineLen == |DropEnds(old(line[..lineLen]))|
    {
      ghost var raw := line[..lineLen];
      while lineLen > 0 && (line[lineLen - 1] == '\n' || line[lineLen - 1] == '\r')
        invariant lineLen <= |raw| && line[..|raw|] == raw
        invariant DropEnds(raw) == DropEnds(line[..lineLen])
      {
        assert line[..lineLen][..lineLen - 1] == line[..lineLen - 1];
        lineLen := lineLen - 1;
      }
      ghost var text := line[..lineLen];
      assert text == raw[..lineLen];
      line[lineLen] := '\0';
      assert line[..] == text + "\0" + line[lineLen + 1..];
      CStringEnds(text, line[lineLen + 1..]);
      CStringWhole(text);
    }

    /** stream_process_line */
    method ProcessLine() returns (ok: bool)
      requires Bound(Table()) && lineLen < line.Length && '\0' !in line[..lineLen]
      modifies this`content, this`delivered, this`thinkingOpen, this`toolCalls, this`calls, this`phase
      modifies this`providerState
      modifies this`terminalSeen, this`completed, this`failed, this`summaryDeltasSeen, this`eventData, this`lineLen
      modifies line
      ensures var r := ApplyLine(decode, old(Gathered()), old(line[..lineLen]));
              && (ok <==> r.Some?)
              && (ok ==> r == Some(Gathered()))
    {
      hide Dispatch, Bound, DropEnds, CString;
      TerminateLine();
      var text := CString(line[..]);
      if lineLen == 0 {
        ok := ProcessEvent();
        return;
      }
      if text[0] == ':' || !("data:" <= text) { return true; }
      var data := text[5..];
      if data != "" && data[0] == ' ' { data := data[1..]; }
      assert DataOf(text) == Some(data);
      if eventData != "" {
        ok := AppendData("\n");
        if !ok { return; }
      }
      ok := AppendData(data);
    }

    // ----- bytes -----

    /** Everything but the byte count: the buffer holds the unfinished line within its limits, the response and the
        gathered data are what the lines meant. */
    ghost predicate Framed()
      reads this`content, this`thinkingOpen, this`delivered, this`toolCalls, this`calls, this`phase, this`providerState
      reads this`terminalSeen, this`completed, this`failed, this`summaryDeltasSeen, this`eventData
      reads this`fed, this`lineLen, this`line, line
    {
      && line.Length <= MAX_SSE_EVENT_BYTES + 1 && (lineLen > 0 ==> lineLen < line.Length)
      && line[..lineLen] == Tail(fed) && TailFits(Tail(fed))
      && ApplyLines(decode, Lines(fed)) == Some(Gathered())
    }

    ghost predicate Valid()
      reads this, line
    {
      Framed() && receivedBytes == |fed| <= MAX_RESPONSE_BYTES
    }

    constructor (decode: Decoder)
      ensures Valid() && fed == "" && fresh(line) && this.decode == decode
    {
      this.decode := decode;
      content, toolCalls, phase, providerState := "", [], None, [];
      calls, thinkingOpen, delivered := [], false, [];
      terminalSeen, completed, failed, summaryDeltasSeen := false, false, false, false;
      line, lineLen, eventData, receivedBytes, fed := new char[0], 0, "", 0, "";
    }

    /** Room for one more byte and a terminator. The limit on lines leaves enough: the third test never fails. */
    method EnsureRoom() returns (ok: bool)
      requires lineLen < MAX_SSE_EVENT_BYTES && line.Length <= MAX_SSE_EVENT_BYTES + 1
      requires lineLen > 0 ==> lineLen < line.Length
      modifies this`line
      ensures ok && lineLen + 2 <= line.Length <= MAX_SSE_EVENT_BYTES + 1 && (line == old(line) || fresh(line))
      ensures line[..lineLen] == old(line[..lineLen])
    {
      if lineLen + 2 > line.Length {
        var capacity := if line.Length > 0 then line.Length * 2 else FIRST_CAPACITY;
        if capacity > MAX_SSE_EVENT_BYTES + 1 { capacity := MAX_SSE_EVENT_BYTES + 1; }
        if capacity < lineLen + 2 { return false; }
        var grown := new char[capacity];
        forall k | 0 <= k < lineLen { grown[k] := line[k]; }
        line := grown;
      }
      return true;
    }

    method Push(c: char)
      requires lineLen < MAX_SSE_EVENT_BYTES && line.Length <= MAX_SSE_EVENT_BYTES + 1
      requires lineLen > 0 ==> lineLen < line.Length
      modifies this`line, this`lineLen, line
      ensures line == old(line) || fresh(line)
      ensures lineLen == old(lineLen) + 1 < line.Length <= MAX_SSE_EVENT_BYTES + 1
      ensures line[..lineLen] == old(line[..lineLen]) + [c]
    {
      var ok := EnsureRoom();
      line[lineLen] := c;
      lineLen := lineLen + 1;
    }

    /** One turn of the loop of stream_feed. */
    method FeedByte(c: char) returns (ok: bool)
      requires Framed()
      modifies this, line
      ensures line == old(line) || fresh(line)
      ensures receivedBytes == old(receivedBytes)
      ensures ok <==> TailFits(Tail(old(fed) + [c])) && ApplyLines(decode, Lines(old(fed) + [c])).Some?
      ensures ok ==> Framed() && fed == old(fed) + [c]
    {
      hide ApplyLine, ApplyLines, Tail, Lines, Gathered;
      OneMore(fed, c);
      if c == '\0' || lineLen >= MAX_SSE_EVENT_BYTES {
        LineEnds(decode, fed);
        return false;
      }
      if c == '\n' {
        ok := FeedNewline();
      } else {
        Push(c);
        fed := fed + [c];
        ok := true;
      }
    }

    /** The newline that completes a line. */
    method FeedNewline() returns (ok: bool)
      requires Framed() && lineLen < MAX_SSE_EVENT_BYTES
      modifies this, line
      ensures line == old(line) || fresh(line)
      ensures receivedBytes == old(receivedBytes)
      ensures ok <==> ApplyLines(decode, Lines(old(fed) + "\n")).Some?
      ensures ok ==> Framed() && fed == old(fed) + "\n"
    {
      hide ApplyLine, ApplyLines, Tail, Lines;
      ghost var rest := Tail(fed);
      OneMore(fed, '\n');
      LineEnds(decode, fed);
      Push('\n');
      fed := fed + "\n";
      assert line[..lineLen] == rest + "\n";
      SameLine(decode, Gathered(), rest);
      ok := ProcessLine();
      lineLen := 0;
    }

    /** stream_feed */
    method Feed(bytes: string) returns (ok: bool)
      requires Valid()
      modifies this, line
      ensures line == old(line) || fresh(line)
      ensures ok <==> Accepts(decode, old(fed) + bytes)
      ensures ok ==> Valid() && fed == old(fed) + bytes
    {
      hide ApplyLine, ApplyLines, Tail, Lines, TailFits, Framed;
      if |bytes| > MAX_RESPONSE_BYTES || receivedBytes > MAX_RESPONSE_BYTES - |bytes| { return false; }
      receivedBytes := receivedBytes + |bytes|;
      var i := 0;
      assert old(fed) + bytes[..0] == old(fed);
      while i < |bytes|
        invariant 0 <= i <= |bytes|
        invariant line == old(line) || fresh(line)
        invariant Framed() && fed == old(fed) + bytes[..i] && receivedBytes == old(receivedBytes) + |bytes|
      {
        assert fed + [bytes[i]] == old(fed) + bytes[..i + 1];
        ok := FeedByte(bytes[i]);
        i := i + 1;
        if !ok {
          assert old(fed) + bytes == (old(fed) + bytes[..i]) + bytes[i..];
          RefusalStays(decode, old(fed) + bytes[..i], bytes[i..]);
          return;
        }
      }
      assert bytes[..i] == bytes;
      FramedAccepts();
      return true;
    }

    lemma FramedAccepts()
      requires Framed()
      ensures TailFits(Tail(fed)) && ApplyLines(decode, Lines(fed)).Some?
    {
    }

    /** stream_calls_complete */
    method StreamCallsComplete() returns (complete: bool)
      ensures complete == CallsComplete(toolCalls)
    {
      var i := 0;
      while i < |toolCalls|
        invariant 0 <= i <= |toolCalls|
        invariant forall c | c in toolCalls[..i] :: c.id != "" && c.name != ""
      {
        if toolCalls[i].id == "" || toolCalls[i].name == "" {
          assert toolCalls[i] in toolCalls;
          return false;
        }
        i := i + 1;
      }
      assert toolCalls[..i] == toolCalls;
      return true;
    }

    /** stream_finish */
    method Finish() returns (ok: bool)
      requires Valid()
      modifies this, line
      ensures ok <==> Parse(decode, old(fed)).Some?
      ensures ok ==> Parse(decode, old(fed)) == Some(Response())
    {
      hide ApplyLine, ApplyLines, Dispatch, Tail, Lines;
      FramedAccepts();
      if lineLen != 0 {
        ok := ProcessLine();
        if !ok { return; }
        lineLen := 0;
      }
      ok := ProcessEvent();
      if !ok { return; }
      ok := StreamCallsComplete();
      if !terminalSeen || !completed || failed || !ok { return false; }
      CloseThinkingBlock();
    }
  }

  lemma {:induction false} MergeFailureStays(table: CallTable, phase: Option<string>, items: seq<Option<Item>>,
                                             more: seq<Option<Item>>)
    requires Bound(table) && items <= more && MergeItems(table, phase, items).None?
    ensures MergeItems(table, phase, more).None?
  {
    hide Upsert, SetPhase;
    if items != more {
      MergeFailureStays(table, phase, items, more[..|more| - 1]);
    }
  }

  /** The newline that ends a line is dropped with the rest of its end. */
  lemma SameLine(decode: Decoder, s: State, raw: string)
    requires Sound(s)
    ensures ApplyLine(decode, s, raw + "\n") == ApplyLine(decode, s, raw)
  {
    hide Dispatch, GatherLine, DataOf;
    assert (raw + "\n")[..|raw|] == raw;
  }

  lemma LineEnds(decode: Decoder, bytes: string)
    requires ApplyLines(decode, Lines(bytes)).Some?
    ensures ApplyLines(decode, Lines(bytes + "\n")) ==
            if LineFits(Tail(bytes)) then ApplyLine(decode, ApplyLines(decode, Lines(bytes)).value, Tail(bytes))
            else None
  {
    hide ApplyLine;
    OneMore(bytes, '\n');
    var lines := Lines(bytes) + [Tail(bytes)];
    assert lines[..|lines| - 1] == Lines(bytes);
  }

  /** Cutting does not matter: any fragments of a stream give what the whole stream means. */
  method ParseFragments(decode: Decoder, fragments: seq<string>) returns (r: Option<Reply>)
    ensures r == Parse(decode, Whole(fragments))
  {
    hide ApplyLine, ApplyLines, Dispatch, Tail, Lines, Accepts, StreamParser.Framed;
    var parser := new StreamParser(decode);
    var i := 0;
    while i < |fragments|
      invariant 0 <= i <= |fragments|
      invariant parser.Valid() && parser.fed == Whole(fragments[..i]) && parser.decode == decode
      invariant fresh(parser) && fresh(parser.line)
    {
      assert fragments[..i + 1][..i] == fragments[..i];
      var ok := parser.Feed(fragments[i]);
      if !ok {
        WholeGrows(fragments, i + 1);
        ghost var sofar := Whole(fragments[..i + 1]);
        assert Whole(fragments) == sofar + Whole(fragments)[|sofar|..];
        RefusalStays(decode, sofar, Whole(fragments)[|sofar|..]);
        return None;
      }
      i := i + 1;
    }
    assert fragments[..i] == fragments;
    var ok := parser.Finish();
    r := if ok then Some(parser.Response()) else None;
  }
}
