/**
 What a reader sees of an OpenAI-compatible stream, said in terms of the decoded events alone: the
 chunks that go to the callback and into the content, the tool calls, which streams fail, and which
 lines of a printed stream are events.
 */
module CompatibleText {
  import opened Wrappers
  import opened LineFraming
  import opened ThinkingBlocks
  import opened CompatibleReply

  // ----- the events of a stream -----

  function PayloadOf(raw: string): seq<string> {
    var payload := Payload(LineText(raw));
    if payload.None? then [] else [payload.value]
  }

  function PayloadsOf(lines: seq<string>): seq<string> {
    if lines == [] then [] else PayloadsOf(lines[..|lines| - 1]) + PayloadOf(lines[|lines| - 1])
  }

  /** The texts of a stream that are parsed as JSON, in order. */
  function Payloads(bytes: string): seq<string> {
    PayloadsOf(Lines(bytes)) + PayloadOf(Tail(bytes))
  }

  /** All of them can be read. */
  predicate Readable(decode: Decoder, payloads: seq<string>) {
    forall i | 0 <= i < |payloads| :: decode(payloads[i]).Some?
  }

  function Events(decode: Decoder, payloads: seq<string>): (events: seq<Event>)
    requires Readable(decode, payloads)
    ensures |events| == |payloads|
  {
    seq(|payloads|, i requires 0 <= i < |payloads| => decode(payloads[i]).value)
  }

  // ----- what they show -----

  predicate Says(text: Option<string>) {
    text.Some? && text.value != ""
  }

  /** A block is open: there was reasoning since the last answer. */
  predicate Open(events: seq<Event>) {
    events != [] &&
      var e := events[|events| - 1];
      !Says(e.content) && (Says(e.reasoning) || Open(events[..|events| - 1]))
  }

  /** What the callback is called with for an event: its reasoning, then its answer. */
  function ChunksOf(before: seq<Event>, e: Event): seq<Chunk> {
    (if Says(e.reasoning) && !Open(before) then [ThinkOpen] else [])
    + (if Says(e.reasoning) then [Thought(e.reasoning.value)] else [])
    + (if Says(e.content) && (Says(e.reasoning) || Open(before)) then [ThinkClose] else [])
    + (if Says(e.content) then [Answer(e.content.value)] else [])
  }

  function Chunks(events: seq<Event>): seq<Chunk> {
    if events == [] then []
    else Chunks(events[..|events| - 1]) + ChunksOf(events[..|events| - 1], events[|events| - 1])
  }

  /** The answer's texts, without empty ones. */
  function Answers(events: seq<Event>): seq<string> {
    if events == [] then []
    else
      var e := events[|events| - 1];
      Answers(events[..|events| - 1]) + if Says(e.content) then [e.content.value] else []
  }

  function Thoughts(events: seq<Event>): seq<string> {
    if events == [] then []
    else
      var e := events[|events| - 1];
      Thoughts(events[..|events| - 1]) + if Says(e.reasoning) then [e.reasoning.value] else []
  }

  // ----- tool calls -----

  /** All deltas of the events, in order. */
  function Deltas(events: seq<Event>): seq<ToolDelta> {
    if events == [] then [] else Deltas(events[..|events| - 1]) + events[|events| - 1].tools
  }

  /** Pieces one after the other; nothing if there is none. */
  function Glue(pieces: seq<Option<string>>): Option<string> {
    if pieces == [] then None
    else
      var rest := Glue(pieces[1..]);
      if pieces[0].None? then rest else if rest.None? then pieces[0] else Some(pieces[0].value + rest.value)
  }

  function Ids(deltas: seq<ToolDelta>): seq<Option<string>> {
    seq(|deltas|, i requires 0 <= i < |deltas| => deltas[i].id)
  }

  function Names(deltas: seq<ToolDelta>): seq<Option<string>> {
    seq(|deltas|, i requires 0 <= i < |deltas| => deltas[i].name)
  }

  function ArgumentPieces(deltas: seq<ToolDelta>): seq<Option<string>> {
    seq(|deltas|, i requires 0 <= i < |deltas| => deltas[i].arguments)
  }

  lemma {:induction false} GlueMore(pieces: seq<Option<string>>, piece: Option<string>)
    ensures Glue(pieces + [piece]) ==
            if piece.None? then Glue(pieces)
            else if Glue(pieces).None? then piece else Some(Glue(pieces).value + piece.value)
  {
    if pieces == [] {
      assert [piece][1..] == [];
    } else {
      assert (pieces + [piece])[1..] == pieces[1..] + [piece];
      GlueMore(pieces[1..], piece);
      var rest := Glue(pieces[1..]);
      if piece.Some? && pieces[0].Some? && rest.Some? {
        assert pieces[0].value + (rest.value + piece.value) == (pieces[0].value + rest.value) + piece.value;
      }
    }
  }

  lemma AppendIsGlue(pieces: seq<Option<string>>, piece: Option<string>)
    ensures Append(Glue(pieces), piece) == Glue(pieces + [piece])
  {
    GlueMore(pieces, piece);
    if piece.Some? { assert "" + piece.value == piece.value; }
  }

  /** A slot is its pieces, field by field. */
  lemma {:induction false} AssembledIsGlued(deltas: seq<ToolDelta>)
    ensures Assemble(deltas) == ToolCall(Glue(Ids(deltas)), Glue(Names(deltas)), Glue(ArgumentPieces(deltas)))
  {
    if deltas != [] {
      hide Append, Glue;
      var front, d := deltas[..|deltas| - 1], deltas[|deltas| - 1];
      AssembledIsGlued(front);
      AppendIsGlue(Ids(front), d.id);
      AppendIsGlue(Names(front), d.name);
      AppendIsGlue(ArgumentPieces(front), d.arguments);
      assert Ids(deltas) == Ids(front) + [d.id] && Names(deltas) == Names(front) + [d.name];
      assert ArgumentPieces(deltas) == ArgumentPieces(front) + [d.arguments];
    }
  }

  // ----- one event more -----

  lemma OpenMore(before: seq<Event>, e: Event)
    ensures Open(before + [e]) <==> !Says(e.content) && (Says(e.reasoning) || Open(before))
    ensures Chunks(before + [e]) == Chunks(before) + ChunksOf(before, e)
    ensures Deltas(before + [e]) == Deltas(before) + e.tools
  {
    hide Says, ChunksOf;
    assert (before + [e])[..|before|] == before;
  }

  ghost predicate Tells(t: Transcript, events: seq<Event>) {
    t.delivered == Chunks(events) && t.thinking == Open(events)
  }

  lemma EventTells(t: Transcript, before: seq<Event>, e: Event)
    requires Tells(t, before)
    ensures Tells(ApplyText(t, e), before + [e])
  {
    OpenMore(before, e);
    hide Chunks, Open;
    assert ApplyText(t, e).delivered == t.delivered + ChunksOf(before, e);
  }

  lemma EventsMore(decode: Decoder, front: seq<string>, payload: string)
    requires Readable(decode, front + [payload])
    ensures Readable(decode, front) && decode(payload).Some?
    ensures Events(decode, front + [payload]) == Events(decode, front) + [decode(payload).value]
  {
    var all := front + [payload];
    assert all[|front|] == payload && forall i | 0 <= i < |front| :: all[i] == front[i];
  }

  /** The reply so far is what its events are. */
  ghost predicate Reflects(decode: Decoder, r: Option<Reply>, payloads: seq<string>) {
    && (r.Some? <==> Readable(decode, payloads) && FoldTools([], Deltas(Events(decode, payloads))).Some?)
    && (r.Some? ==>
          && Tells(r.value.text, Events(decode, payloads))
          && FoldTools([], Deltas(Events(decode, payloads))) == Some(r.value.calls))
  }

  lemma LineReflects(decode: Decoder, r: Reply, payloads: seq<string>, raw: string)
    requires Reflects(decode, Some(r), payloads)
    ensures Reflects(decode, ApplyLine(decode, r, raw), payloads + PayloadOf(raw))
  {
    hide LineText, Payload, Tells, FoldTools, ApplyText, Deltas;
    var payload := Payload(LineText(raw));
    if payload.None? {
      assert payloads + [] == payloads;
    } else {
      var all := payloads + [payload.value];
      assert all[|payloads|] == payload.value;
      if decode(payload.value).Some? {
        var e, before := decode(payload.value).value, Events(decode, payloads);
        assert Readable(decode, all);
        EventsMore(decode, payloads, payload.value);
        EventTells(r.text, before, e);
        OpenMore(before, e);
        FoldToolsConcat([], Deltas(before), e.tools);
      }
    }
  }

  lemma FailureReflects(decode: Decoder, payloads: seq<string>, more: seq<string>)
    requires Reflects(decode, None, payloads)
    ensures Reflects(decode, None, payloads + more)
  {
    hide FoldTools, Deltas, Tells;
    var all := payloads + more;
    assert forall i | 0 <= i < |payloads| :: all[i] == payloads[i];
    if Readable(decode, all) {
      assert Readable(decode, payloads);
      var before, rest := Events(decode, payloads), Events(decode, all)[|payloads|..];
      assert Events(decode, all) == before + rest;
      DeltasConcat(before, rest);
      FoldToolsConcat([], Deltas(before), Deltas(rest));
    }
  }

  lemma {:induction false} DeltasConcat(a: seq<Event>, b: seq<Event>)
    ensures Deltas(a + b) == Deltas(a) + Deltas(b)
  {
    if b == [] {
      assert a + b == a;
    } else {
      var front, last := b[..|b| - 1], b[|b| - 1];
      DeltasConcat(a, front);
      var all := a + b;
      assert all[..|all| - 1] == a + front && all[|all| - 1] == last;
    }
  }

  lemma {:induction false} LinesReflect(decode: Decoder, lines: seq<string>)
    ensures Reflects(decode, ApplyLines(decode, lines), PayloadsOf(lines))
  {
    if lines == [] {
      NothingReflected(decode);
    } else {
      hide Reflects, ApplyLine, PayloadOf;
      var front, raw := lines[..|lines| - 1], lines[|lines| - 1];
      LinesReflect(decode, front);
      if ApplyLines(decode, front).Some? {
        LineReflects(decode, ApplyLines(decode, front).value, PayloadsOf(front), raw);
      } else {
        FailureReflects(decode, PayloadsOf(front), PayloadOf(raw));
      }
    }
  }

  lemma NothingReflected(decode: Decoder)
    ensures Reflects(decode, Some(EMPTY), [])
  {
  }

  // ----- whole streams -----

  /** The stream is parsed exactly if all its payloads can be read and no tool call has a negative index. */
  lemma ParseExact(decode: Decoder, bytes: string)
    ensures Parse(decode, bytes).Some? <==>
              && Readable(decode, Payloads(bytes))
              && forall d | d in Deltas(Events(decode, Payloads(bytes))) :: d.index >= 0
  {
    hide ApplyLines, ApplyLine, PayloadsOf, PayloadOf, Deltas, FoldTools, Tells;
    AllReflected(decode, bytes);
    if Readable(decode, Payloads(bytes)) {
      ToolCallsApart(Deltas(Events(decode, Payloads(bytes))));
    }
  }

  /** The reply before its last block is closed. */
  function Unclosed(decode: Decoder, bytes: string): Option<Reply> {
    var lines := ApplyLines(decode, Lines(bytes));
    if lines.None? then None else ApplyLine(decode, lines.value, Tail(bytes))
  }

  lemma AllReflected(decode: Decoder, bytes: string)
    ensures Reflects(decode, Unclosed(decode, bytes), Payloads(bytes))
    ensures Parse(decode, bytes) ==
            var r := Unclosed(decode, bytes);
            if r.None? then None else Some(r.value.(text := Close(r.value.text)))
  {
    hide ApplyLines, ApplyLine, PayloadsOf, PayloadOf, Reflects, Close;
    LinesReflect(decode, Lines(bytes));
    var lines := ApplyLines(decode, Lines(bytes));
    if lines.Some? {
      LineReflects(decode, lines.value, PayloadsOf(Lines(bytes)), Tail(bytes));
    } else {
      FailureReflects(decode, PayloadsOf(Lines(bytes)), PayloadOf(Tail(bytes)));
    }
  }

  /** On every successful stream the callback gets exactly what the events show and, if a block is left open, its
      end; the content is that text. */
  lemma TextOfStream(decode: Decoder, bytes: string)
    requires Parse(decode, bytes).Some?
    ensures Readable(decode, Payloads(bytes))
    ensures var text, events := Parse(decode, bytes).value.text, Events(decode, Payloads(bytes));
            && text.delivered == Chunks(events) + (if Open(events) then [ThinkClose] else [])
            && text.content == Spelled(text.delivered)
            && AnswersIn(text.delivered) == Answers(events) && ThoughtsIn(text.delivered) == Thoughts(events)
  {
    hide ApplyLines, ApplyLine, PayloadsOf, PayloadOf, Deltas, FoldTools, Chunks, Open, Answers, Thoughts, AnswersIn,
         ThoughtsIn, Spelled, Rendered, Bracketed, Parse, Unclosed, Payloads;
    AllReflected(decode, bytes);
    BlocksEndClosed(decode, bytes);
    var events := Events(decode, Payloads(bytes));
    var text := Parse(decode, bytes).value.text;
    RenderedIsSpelled(text.delivered);
    TextsInChunks(events);
    ClosedTexts(Chunks(events));
    assert Chunks(events) + [] == Chunks(events);
  }

  /** ... and each slot of the response is its own pieces, whatever came in between. */
  lemma CallsOfStream(decode: Decoder, bytes: string)
    requires Parse(decode, bytes).Some?
    ensures Readable(decode, Payloads(bytes))
    ensures var calls, deltas := Parse(decode, bytes).value.calls, Deltas(Events(decode, Payloads(bytes)));
            && |calls| == Slots(deltas)
            && forall i | 0 <= i < |calls| ::
                 var own := Only(deltas, i);
                 calls[i] == ToolCall(Glue(Ids(own)), Glue(Names(own)), Glue(ArgumentPieces(own)))
  {
    hide ApplyLines, ApplyLine, PayloadsOf, PayloadOf, Deltas, FoldTools, Tells, Slots, Only, Assemble, Parse, Unclosed,
         Payloads, Glue;
    AllReflected(decode, bytes);
    var deltas := Deltas(Events(decode, Payloads(bytes)));
    ToolCallsApart(deltas);
    forall i: nat ensures Assemble(Only(deltas, i)) ==
      ToolCall(Glue(Ids(Only(deltas, i))), Glue(Names(Only(deltas, i))), Glue(ArgumentPieces(Only(deltas, i))))
    {
      AssembledIsGlued(Only(deltas, i));
    }
  }

  lemma TextsOfEvent(before: seq<Event>, e: Event)
    ensures AnswersIn(ChunksOf(before, e)) == if Says(e.content) then [e.content.value] else []
    ensures ThoughtsIn(ChunksOf(before, e)) == if Says(e.reasoning) then [e.reasoning.value] else []
  {
    hide Open, AnswersIn, ThoughtsIn;
    var a := if Says(e.reasoning) && !Open(before) then [ThinkOpen] else [];
    var b := if Says(e.reasoning) then [Thought(e.reasoning.value)] else [];
    var c := if Says(e.content) && (Says(e.reasoning) || Open(before)) then [ThinkClose] else [];
    var d := if Says(e.content) then [Answer(e.content.value)] else [];
    InConcat(a + b + c, d); InConcat(a + b, c); InConcat(a, b);
    forall chunk: Chunk
      ensures AnswersIn([chunk]) == AnswerOf(chunk) && ThoughtsIn([chunk]) == ThinkingOf(chunk)
    {
      OneChunk(chunk);
    }
    OneChunk(ThinkOpen);
    assert AnswersIn(a) == [] && AnswersIn(b) == [] && AnswersIn(c) == [];
    assert ThoughtsIn(a) == [] && ThoughtsIn(c) == [] && ThoughtsIn(d) == [];
    assert AnswersIn(ChunksOf(before, e)) == AnswersIn(d);
    assert ThoughtsIn(ChunksOf(before, e)) == ThoughtsIn(b);
  }

  lemma {:induction false} TextsInChunks(events: seq<Event>)
    ensures AnswersIn(Chunks(events)) == Answers(events) && ThoughtsIn(Chunks(events)) == Thoughts(events)
  {
    if events != [] {
      hide ChunksOf, Says, AnswersIn, ThoughtsIn;
      var before, e := events[..|events| - 1], events[|events| - 1];
      TextsInChunks(before);
      InConcat(Chunks(before), ChunksOf(before, e));
      TextsOfEvent(before, e);
    } else {
      OneChunk(ThinkOpen);
    }
  }

  // ----- printed streams -----

  /** What ends a line before its newline: nothing, one carriage return, or a NUL and whatever follows it. */
  datatype Ending = Bare | Return | Nul(junk: string)

  /** A data line, or one that is none. */
  datatype Wire = Data(text: string, ending: Ending) | Other(text: string, ending: Ending)

  function Body(line: Wire): string {
    if line.Data? then "data: " + line.text else line.text
  }

  function Print(line: Wire): string {
    Body(line) + match line.ending case Bare => "" case Return => "\r" case Nul(junk) => "\0" + junk
  }

  predicate Printable(line: Wire) {
    && '\n' !in line.text && '\0' !in line.text
    && (line.ending.Bare? && line.text != "" ==> line.text[|line.text| - 1] != '\r')
    && (line.ending.Nul? ==> '\n' !in line.ending.junk)
    && (line.Other? ==> !("data: " <= line.text))
  }

  /** The texts of the data lines, without the end marks. */
  function Sent(lines: seq<Wire>): seq<string> {
    if lines == [] then []
    else
      var last := lines[|lines| - 1];
      Sent(lines[..|lines| - 1]) + if last.Data? && last.text != "[DONE]" then [last.text] else []
  }

  function Prints(lines: seq<Wire>): seq<string> {
    seq(|lines|, i requires 0 <= i < |lines| => Print(lines[i]))
  }

  predicate AllPrintable(lines: seq<Wire>) {
    forall i | 0 <= i < |lines| :: Printable(lines[i])
  }

  lemma BareText(body: string)
    requires '\0' !in body && (body != "" ==> body[|body| - 1] != '\r')
    ensures LineText(body) == body
  {
    CStringWhole(body);
  }

  lemma ReturnText(body: string)
    requires '\0' !in body
    ensures LineText(body + "\r") == body
  {
    CStringWhole(body);
    assert (body + "\r")[..|body|] == body;
  }

  lemma NulText(body: string, junk: string)
    requires '\0' !in body
    ensures LineText(body + "\0" + junk) == body
  {
    hide CString;
    CStringWhole(body);
    CStringEnds(body, junk);
    var raw := body + "\0" + junk;
    if junk != "" {
      CStringEnds(body, junk[..|junk| - 1]);
      assert raw[..|raw| - 1] == body + "\0" + junk[..|junk| - 1];
    } else {
      assert raw[|raw| - 1] == '\0';
    }
  }

  lemma PrintedText(line: Wire)
    requires Printable(line)
    ensures LineText(Print(line)) == Body(line) && OneLine(Print(line))
  {
    hide LineText;
    var body := Body(line);
    assert '\0' !in body && '\n' !in body;
    match line.ending {
      case Bare =>
        assert body + "" == body;
        BareText(body);
      case Return => ReturnText(body);
      case Nul(junk) =>
        NulText(body, junk);
        assert body + ("\0" + junk) == body + "\0" + junk;
    }
  }

  lemma PrintedPayload(line: Wire)
    requires Printable(line)
    ensures PayloadOf(Print(line)) == if line.Data? && line.text != "[DONE]" then [line.text] else []
  {
    hide LineText;
    PrintedText(line);
    if line.Data? { assert ("data: " + line.text)[6..] == line.text; }
  }

  lemma PrintsMore(lines: seq<Wire>)
    requires lines != [] && AllPrintable(lines)
    ensures var n := |lines| - 1;
            && AllPrintable(lines[..n]) && Printable(lines[n])
            && Prints(lines) == Prints(lines[..n]) + [Print(lines[n])]
  {
    hide Print, Printable;
  }

  lemma PayloadsMore(raws: seq<string>, raw: string)
    ensures PayloadsOf(raws + [raw]) == PayloadsOf(raws) + PayloadOf(raw)
  {
    hide PayloadOf;
    assert (raws + [raw])[..|raws|] == raws;
  }

  lemma {:induction false} PrintedPayloads(lines: seq<Wire>)
    requires AllPrintable(lines)
    ensures PayloadsOf(Prints(lines)) == Sent(lines)
    ensures forall raw | raw in Prints(lines) :: OneLine(raw)
  {
    if lines != [] {
      hide Print, Prints, Printable, AllPrintable, PayloadOf, PayloadsOf, OneLine;
      var n := |lines| - 1;
      PrintsMore(lines);
      PrintedPayloads(lines[..n]);
      PrintedText(lines[n]);
      PrintedPayload(lines[n]);
      PayloadsMore(Prints(lines[..n]), Print(lines[n]));
    }
  }

  /** Printed streams are read back: the payloads are the texts of the data lines but for the end marks. The last line
      may lack its newline. */
  lemma PrintedStream(lines: seq<Wire>, last: Option<Wire>)
    requires AllPrintable(lines) && (last.Some? ==> Printable(last.value))
    ensures Payloads(Join(Prints(lines)) + if last.Some? then Print(last.value) else "") ==
            Sent(lines + if last.Some? then [last.value] else [])
  {
    hide Print, Printable, PayloadOf, PayloadsOf, Lines, Tail, Join;
    PrintedPayloads(lines);
    if last.Some? {
      PrintedText(last.value);
      PrintedPayload(last.value);
      SplitUnique(Prints(lines), Print(last.value));
      assert (lines + [last.value])[..|lines|] == lines;
    } else {
      NoPayload();
      SplitUnique(Prints(lines), "");
      assert lines + [] == lines && Sent(lines) + [] == Sent(lines);
    }
  }

  lemma NoPayload()
    ensures PayloadOf("") == []
  {
    assert LineText("") == "";
  }
}
