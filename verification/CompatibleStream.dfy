/**
 The stream parser of the OpenAI-compatible client: a growing line buffer filled byte by byte, and
 a response changed event by event. Proved against CompatibleReply.
 */
module CompatibleStream {
  import opened Wrappers
  import opened LineFraming
  import opened CompatibleReply
  import opened ThinkingBlocks

  const FIRST_CAPACITY := 256

  class StreamParser {
    const decode: Decoder
    var line: array<char>
    var lineLen: nat
    // the response under construction
    var content: string
    var calls: seq<ToolCall>
    var thinkingOpen: bool
    var delivered: seq<Chunk>
    ghost var fed: string      // every byte so far

    function Text(): Transcript
      reads this`content, this`thinkingOpen, this`delivered
    {
      Transcript(content, thinkingOpen, delivered)
    }

    function Response(): Reply
      reads this`content, this`thinkingOpen, this`delivered, this`calls
    {
      Reply(Text(), calls)
    }

    /** The buffer holds the unfinished line with room for a terminator; the response is what the lines meant. */
    ghost predicate Valid()
      reads this, line
    {
      && (lineLen > 0 ==> lineLen < line.Length)
      && line[..lineLen] == Tail(fed)
      && ApplyLines(decode, Lines(fed)) == Some(Response())
    }

    constructor (decode: Decoder)
      ensures Valid() && fed == "" && fresh(line) && this.decode == decode
    {
      this.decode := decode;
      line, lineLen := new char[0], 0;
      content, calls, thinkingOpen, delivered, fed := "", [], false, [], "";
    }

    // ----- events -----

    method Put(chunk: Chunk)
      modifies this`content, this`delivered
      ensures Text() == Deliver(old(Text()), chunk, thinkingOpen)
    {
      content := content + chunk.Render();
      delivered := delivered + [chunk];
    }

    /** forward_reasoning_delta */
    method ForwardReasoning(text: string)
      modifies this`content, this`delivered, this`thinkingOpen
      ensures Text() == Think(old(Text()), text)
    {
      if text == "" { return; }
      if !thinkingOpen {
        Put(ThinkOpen);
        thinkingOpen := true;
      }
      Put(Thought(text));
    }

    method CloseThinking()
      modifies this`content, this`delivered, this`thinkingOpen
      ensures Text() == Close(old(Text()))
    {
      if thinkingOpen {
        Put(ThinkClose);
        thinkingOpen := false;
      }
    }

    /** ensure_tool_call */
    method EnsureToolCall(index: int) returns (ok: bool)
      modifies this`calls
      ensures ok <==> index >= 0
      ensures calls == if ok then Ensure(old(calls), index) else old(calls)
    {
      if index < 0 { return false; }
      while |calls| <= index
        invariant |calls| >= |old(calls)|
        invariant |calls| > |old(calls)| ==> |calls| <= index + 1
        invariant forall k | 0 <= k < |calls| :: calls[k] == if k < |old(calls)| then old(calls)[k] else NO_CALL
        decreases index - |calls|
      {
        calls := calls + [NO_CALL];
      }
      return true;
    }

    /** The loop over delta.tool_calls. */
    method ApplyTools(deltas: seq<ToolDelta>) returns (ok: bool)
      modifies this`calls
      ensures ok <==> FoldTools(old(calls), deltas).Some?
      ensures ok ==> FoldTools(old(calls), deltas) == Some(calls)
    {
      var i := 0;
      while i < |deltas|
        invariant 0 <= i <= |deltas|
        invariant FoldTools(old(calls), deltas[..i]) == Some(calls)
      {
        assert deltas[..i + 1][..i] == deltas[..i];
        ok := EnsureToolCall(deltas[i].index);
        if !ok {
          ToolsFailureStays(old(calls), deltas[..i + 1], deltas);
          return;
        }
        calls := calls[deltas[i].index := Extend(calls[deltas[i].index], deltas[i])];
        i := i + 1;
      }
      assert deltas[..i] == deltas;
      return true;
    }

    /** parse_stream_event */
    method ParseEvent(json: string) returns (ok: bool)
      modifies this`content, this`delivered, this`thinkingOpen, this`calls
      ensures var event := decode(json);
              var r := if event.None? then None else ApplyEvent(old(Response()), event.value);
              && (ok <==> r.Some?)
              && (ok ==> r == Some(Response()))
    {
      hide FoldTools;
      var event := decode(json);
      if event.None? { return false; }
      ForwardReasoning(event.value.reasoning.GetOr(""));
      if event.value.content.GetOr("") != "" {
        CloseThinking();
        Put(Answer(event.value.content.value));
      }
      ok := ApplyTools(event.value.tools);
    }

    // ----- bytes -----

    /** The buffer grows before it is full: what it holds stays, and there is room for a byte and a terminator. */
    method EnsureRoom()
      requires lineLen > 0 ==> lineLen < line.Length
      modifies this`line
      ensures lineLen + 1 < line.Length && (line == old(line) || fresh(line))
      ensures line[..lineLen] == old(line[..lineLen])
      ensures line.Length == if lineLen + 1 >= old(line.Length)
                             then (if old(line.Length) > 0 then 2 * old(line.Length) else FIRST_CAPACITY)
                             else old(line.Length)
    {
      if lineLen + 1 >= line.Length {
        var grown := new char[if line.Length > 0 then line.Length * 2 else FIRST_CAPACITY];
        forall k | 0 <= k < lineLen { grown[k] := line[k]; }
        line := grown;
      }
    }

    /** Ends the first `end` bytes of the buffer with a terminator, less a carriage return, and handles them as a
        line. */
    method HandleLine(end: nat) returns (ok: bool)
      requires end < line.Length
      modifies this`content, this`delivered, this`thinkingOpen, this`calls, this`lineLen, line
      ensures lineLen == 0
      ensures var r := ApplyLine(decode, old(Response()), old(line[..end]));
              && (ok <==> r.Some?)
              && (ok ==> r == Some(Response()))
    {
      ghost var raw := line[..end];
      var last := end;
      if last > 0 && line[last - 1] == '\r' { last := last - 1; }
      line[last] := '\0';
      lineLen := 0;
      ghost var kept := if raw != "" && raw[|raw| - 1] == '\r' then raw[..|raw| - 1] else raw;
      assert line[..] == kept + "\0" + line[last + 1..];
      CStringEnds(kept, line[last + 1..]);
      var text := CString(line[..]);
      assert text == LineText(raw);
      ok := true;
      if "data: " <= text && text[6..] != "[DONE]" {
        ok := ParseEvent(text[6..]);
      }
    }

    method Push(c: char)
      requires lineLen > 0 ==> lineLen < line.Length
      modifies this`line, this`lineLen, line
      ensures line == old(line) || fresh(line)
      ensures lineLen == old(lineLen) + 1 < line.Length && line[..lineLen] == old(line[..lineLen]) + [c]
    {
      EnsureRoom();
      line[lineLen] := c;
      lineLen := lineLen + 1;
    }

    method FeedByte(c: char) returns (ok: bool)
      requires Valid()
      modifies this, line
      ensures line == old(line) || fresh(line)
      ensures ok <==> ApplyLines(decode, Lines(old(fed) + [c])).Some?
      ensures ok ==> Valid() && fed == old(fed) + [c]
    {
      hide ApplyLine, ApplyLines, Tail, Lines;
      ghost var rest := Tail(fed);
      Push(c);
      if c == '\n' {
        LineEnds(decode, fed);
        assert line[..lineLen - 1] == rest;
        fed := fed + [c];
        ok := HandleLine(lineLen - 1);
      } else {
        OneMore(fed, c);
        fed := fed + [c];
        ok := true;
      }
    }

    /** stream_parser_feed */
    method Feed(bytes: string) returns (ok: bool)
      requires Valid()
      modifies this, line
      ensures line == old(line) || fresh(line)
      ensures ok <==> ApplyLines(decode, Lines(old(fed) + bytes)).Some?
      ensures ok ==> Valid() && fed == old(fed) + bytes
    {
      hide ApplyLine, ApplyLines, Tail, Lines, Valid;
      var i := 0;
      assert old(fed) + bytes[..0] == old(fed);
      while i < |bytes|
        invariant 0 <= i <= |bytes|
        invariant line == old(line) || fresh(line)
        invariant Valid() && fed == old(fed) + bytes[..i]
      {
        assert fed + [bytes[i]] == old(fed) + bytes[..i + 1];
        ok := FeedByte(bytes[i]);
        i := i + 1;
        if !ok {
          assert old(fed) + bytes == (old(fed) + bytes[..i]) + bytes[i..];
          StreamFailureStays(decode, old(fed) + bytes[..i], bytes[i..]);
          return;
        }
      }
      assert bytes[..i] == bytes;
      ValidApplies();
      return true;
    }

    lemma ValidApplies()
      requires Valid()
      ensures ApplyLines(decode, Lines(fed)).Some?
    {
    }

    /** stream_parser_finish */
    method Finish() returns (ok: bool)
      requires Valid()
      modifies this, line
      ensures ok <==> Parse(decode, old(fed)).Some?
      ensures ok ==> Parse(decode, old(fed)) == Some(Response())
    {
      if lineLen != 0 {
        ok := HandleLine(lineLen);
        if !ok { return; }
      }
      CloseThinking();
      return true;
    }
  }

  lemma {:induction false} ToolsFailureStays(calls: seq<ToolCall>, deltas: seq<ToolDelta>, more: seq<ToolDelta>)
    requires deltas <= more && FoldTools(calls, deltas).None?
    ensures FoldTools(calls, more).None?
  {
    if deltas != more {
      ToolsFailureStays(calls, deltas, more[..|more| - 1]);
    }
  }

  lemma StreamFailureStays(decode: Decoder, bytes: string, more: string)
    requires ApplyLines(decode, Lines(bytes)).None?
    ensures ApplyLines(decode, Lines(bytes + more)).None?
  {
    LinesGrow(bytes, more);
    FailureStays(decode, Lines(bytes), Lines(bytes + more));
  }

  /** Cutting does not matter: any fragments of a stream give what the whole stream means. */
  method ParseFragments(decode: Decoder, fragments: seq<string>) returns (r: Option<Reply>)
    ensures r == Parse(decode, Whole(fragments))
  {
    hide ApplyLine, ApplyLines, Tail, Lines, StreamParser.Valid;
    var parser := new StreamParser(decode);
    var i := 0;
    while i < |fragments|
      invariant 0 <= i <= |fragments|
      invariant parser.Valid() && parser.fed == Whole(fragments[..i]) && parser.decode == decode
      invariant fresh(parser) && fresh(parser.line)
    {
      assert fragments[..i + 1][..i] == fragments[..i];
      var ok := parser.Feed(fragments[i]);
      if !ok {
        WholeGrows(fragments, i + 1);
        ghost var sofar := Whole(fragments[..i + 1]);
        assert Whole(fragments) == sofar + Whole(fragments)[|sofar|..];
        StreamFailureStays(decode, sofar, Whole(fragments)[|sofar|..]);
        return None;
      }
      i := i + 1;
    }
    assert fragments[..i] == fragments;
    var ok := parser.Finish();
    r := if ok then Some(parser.Response()) else None;
  }
}
