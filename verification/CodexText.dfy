/**
 What a reader sees of a Codex stream: which chunks go to the callback and into the content, the
 phase, and the reasoning kept for the next request, said in terms of the decoded events alone.
 */
module CodexText {
  import opened Wrappers
  import opened LineFraming
  import opened ThinkingBlocks
  import opened CodexCalls
  import opened CodexReply

  // ----- what one event shows -----

  /** The text has the part in it somewhere. */
  ghost predicate Somewhere(text: string, part: string) {
    exists i: nat :: At(text, part, i)
  }

  predicate At(text: string, part: string, i: nat) {
    i + |part| <= |text| && text[i..i + |part|] == part
  }

  /** What a summary shows: the text, or, if it has comment markers, what is left without them unless that is blank. */
  ghost function Shown(text: string): string {
    if !Somewhere(text, "<!--") && !Somewhere(text, "-->") then text
    else if forall c | c in Strip(text) :: c in " \t\n\U{000b}\U{000c}\r" then ""
    else Strip(text)
  }

  function NonEmpty(parts: seq<string>): seq<string> {
    if parts == [] then [] else (if parts[0] == "" then [] else [parts[0]]) + NonEmpty(parts[1..])
  }

  /** The parts that are not empty, one a line. */
  function Paragraphs(parts: seq<string>): string {
    var said := NonEmpty(parts);
    if said == [] then "" else said[0] + Continued(said[1..])
  }

  function Continued(parts: seq<string>): string {
    if parts == [] then "" else "\n" + parts[0] + Continued(parts[1..])
  }

  /** A finished reasoning item. */
  predicate Ends(e: Event) {
    e.ItemDone? && e.item.Some? && e.item.value.Reasoning?
  }

  /** Events that close an open block. */
  predicate Closes(e: Event) {
    e.TextDelta? || Ends(e)
  }

  /** Summary deltas have come since the last reasoning item was finished. */
  ghost predicate Streamed(before: seq<Event>) {
    exists j | 0 <= j < |before| :: before[j].SummaryDelta? && forall k | j < k < |before| :: !Ends(before[k])
  }

  /** A block is open: something was thought since the last event that closes one. */
  ghost predicate Open(before: seq<Event>)
    decreases |before|, 0
  {
    before != [] &&
      var front, e := before[..|before| - 1], before[|before| - 1];
      (ThoughtOf(front, e) != "" && !Ends(e)) || (Open(front) && !Closes(e))
  }

  /** The reasoning an event shows: deltas as they come, a whole summary only if there were no deltas, and that of
      the finished item only if no block is open. */
  ghost function ThoughtOf(before: seq<Event>, e: Event): string
    decreases |before|, 1
  {
    match e
    case SummaryDelta(Some(text)) => Shown(text)
    case SummaryDone(Some(text)) => if Streamed(before) then "" else Shown(text)
    case ItemDone(_, Some(Reasoning(_, summary))) => if Open(before) then "" else Shown(Paragraphs(summary))
    case _ => ""
  }

  /** What the callback is called with for an event. */
  ghost function ChunksOf(before: seq<Event>, e: Event): seq<Chunk> {
    var thought := ThoughtOf(before, e);
    (if e.TextDelta? && Open(before) then [ThinkClose] else [])
    + (if e.TextDelta? && e.text.Some? then [Answer(e.text.value)] else [])
    + (if thought != "" && !Open(before) then [ThinkOpen] else [])
    + (if thought != "" then [Thought(thought)] else [])
    + (if Ends(e) && (Open(before) || thought != "") then [ThinkClose] else [])
  }

  // ----- what all of them show -----

  ghost function Chunks(events: seq<Event>): seq<Chunk> {
    if events == [] then []
    else Chunks(events[..|events| - 1]) + ChunksOf(events[..|events| - 1], events[|events| - 1])
  }

  /** The answer's texts. */
  function Answers(events: seq<Event>): seq<string> {
    if events == [] then []
    else
      var e := events[|events| - 1];
      Answers(events[..|events| - 1]) + if e.TextDelta? && e.text.Some? then [e.text.value] else []
  }

  /** The thoughts, without empty ones. */
  ghost function Thoughts(events: seq<Event>): seq<string> {
    if events == [] then []
    else
      var before := events[..|events| - 1];
      var thought := ThoughtOf(before, events[|events| - 1]);
      Thoughts(before) + if thought != "" then [thought] else []
  }

  /** The sources of the reasoning items in an output. */
  function ReasoningIn(items: seq<Option<Item>>): seq<string> {
    if items == [] then []
    else
      (if items[0].Some? && items[0].value.Reasoning? then [items[0].value.source] else []) + ReasoningIn(items[1..])
  }

  /** The reasoning kept: that of the completed output if it has any, or else of the items finished one by one. */
  function ReasoningKept(events: seq<Event>): seq<string> {
    if events == [] then [] else KeptAfter(ReasoningKept(events[..|events| - 1]), events[|events| - 1])
  }

  function KeptAfter(before: seq<string>, e: Event): seq<string> {
    match e
    case ItemDone(_, Some(Reasoning(source, _))) => before + [source]
    case Completed(_, Items(items)) => if ReasoningIn(items) == [] then before else ReasoningIn(items)
    case _ => before
  }

  /** The phases that messages name, in order. */
  function PhasesIn(items: seq<Option<Item>>): seq<string> {
    if items == [] then [] else PhaseOf(items[0]) + PhasesIn(items[1..])
  }

  function PhaseOf(item: Option<Item>): seq<string> {
    match item
    case Some(Message(Named(phase))) => [phase]
    case _ => []
  }

  function Phases(events: seq<Event>): seq<string> {
    if events == [] then [] else Phases(events[..|events| - 1]) + PhasesOf(events[|events| - 1])
  }

  function PhasesOf(e: Event): seq<string> {
    match e
    case ItemDone(_, item) => PhasesIn([item])
    case Completed(_, Items(items)) => PhasesIn(items)
    case _ => []
  }

  function Last(phases: seq<string>): Option<string> {
    if phases == [] then None else Some(phases[|phases| - 1])
  }

  // ----- summaries -----

  lemma AtStart(text: string, part: string)
    ensures At(text, part, 0) <==> part <= text
  {
    if |part| <= |text| { assert text[0..0 + |part|] == text[..|part|]; }
  }

  lemma AtNext(text: string, part: string, i: nat)
    requires text != ""
    ensures At(text, part, i + 1) <==> At(text[1..], part, i)
  {
    if i + 1 + |part| <= |text| { assert text[i + 1..i + 1 + |part|] == text[1..][i..i + |part|]; }
  }

  lemma {:induction false} ContainsSomewhere(text: string, part: string)
    ensures Contains(text, part) <==> Somewhere(text, part)
  {
    if part <= text {
      AtStart(text, part);
    } else if text != "" {
      ContainsSomewhere(text[1..], part);
      if Somewhere(text[1..], part) {
        var i: nat :| At(text[1..], part, i);
        AtNext(text, part, i);
      }
      if Somewhere(text, part) {
        var i: nat :| At(text, part, i);
        AtStart(text, part);
        AtNext(text, part, i - 1);
      }
    }
  }

  lemma SummaryShows(t: Transcript, text: string)
    ensures Summarize(t, text) == Think(t, Shown(text))
  {
    hide Contains, Somewhere, Strip;
    ContainsSomewhere(text, "<!--");
    ContainsSomewhere(text, "-->");
    assert Blank(Strip(text)) <==> forall c | c in Strip(text) :: c in " \t\n\U{000b}\U{000c}\r" by {
      forall c ensures IsSpace(c) <==> c in " \t\n\U{000b}\U{000c}\r" { Spaces(c); }
    }
  }

  lemma Spaces(c: char)
    ensures IsSpace(c) <==> c in " \t\n\U{000b}\U{000c}\r"
  {
  }

  lemma {:induction false} NonEmptyMore(parts: seq<string>, part: string)
    ensures NonEmpty(parts + [part]) == NonEmpty(parts) + if part == "" then [] else [part]
  {
    if parts != [] {
      assert (parts + [part])[1..] == parts[1..] + [part];
      NonEmptyMore(parts[1..], part);
    }
  }

  lemma {:induction false} ContinuedMore(parts: seq<string>, part: string)
    ensures Continued(parts + [part]) == Continued(parts) + "\n" + part
  {
    if parts == [] {
      assert Continued([part][1..]) == "";
    } else {
      assert (parts + [part])[1..] == parts[1..] + [part];
      ContinuedMore(parts[1..], part);
    }
  }

  lemma {:induction false} JoinedParagraphs(parts: seq<string>)
    ensures JoinParts(parts) == Paragraphs(parts)
    ensures Paragraphs(parts) == "" <==> NonEmpty(parts) == []
  {
    hide NonEmpty, Paragraphs;
    if parts != [] {
      var front, part := parts[..|parts| - 1], parts[|parts| - 1];
      JoinedParagraphs(front);
      NonEmptyMore(front, part);
      NonEmptyHeads(front);
      assert parts == front + [part];
      ParagraphMore(front, parts, part);
    } else {
      NoParagraphs();
    }
  }

  lemma NoParagraphs()
    ensures Paragraphs([]) == "" && NonEmpty([]) == []
  {
  }

  lemma ParagraphMore(before: seq<string>, after: seq<string>, part: string)
    requires NonEmpty(after) == NonEmpty(before) + if part == "" then [] else [part]
    ensures Paragraphs(after) ==
            if part == "" then Paragraphs(before)
            else if NonEmpty(before) == [] then part else Paragraphs(before) + "\n" + part
  {
    hide NonEmpty;
    var said := NonEmpty(before);
    if part == "" {
      assert said + [] == said;
    } else if said == [] {
      assert NonEmpty(after)[1..] == [];
    } else {
      assert NonEmpty(after)[1..] == said[1..] + [part];
      ContinuedMore(said[1..], part);
    }
  }

  lemma {:induction false} NonEmptyHeads(parts: seq<string>)
    ensures NonEmpty(parts) != [] ==> NonEmpty(parts)[0] != ""
  {
    if parts != [] { NonEmptyHeads(parts[1..]); }
  }

  /** Comment markers put between words that have neither '<' nor '-' in them. */
  datatype Marked = Word(text: string) | OpenMark | CloseMark

  function Marks(pieces: seq<Marked>): string {
    if pieces == [] then ""
    else (match pieces[0] case Word(text) => text case OpenMark => "<!--" case CloseMark => "-->") + Marks(pieces[1..])
  }

  function Words(pieces: seq<Marked>): string {
    if pieces == [] then ""
    else (match pieces[0] case Word(text) => text case _ => "") + Words(pieces[1..])
  }

  /** Stripping drops exactly the comment markers. */
  lemma {:induction false} StripDropsMarks(pieces: seq<Marked>)
    requires forall p | p in pieces && p.Word? :: '<' !in p.text && '-' !in p.text
    ensures Strip(Marks(pieces)) == Words(pieces)
  {
    if pieces != [] {
      var p, rest := pieces[0], Marks(pieces[1..]);
      StripDropsMarks(pieces[1..]);
      match p {
        case Word(text) =>
          assert p in pieces;
          StripWord(text, rest);
        case OpenMark => assert ("<!--" + rest)[4..] == rest;
        case CloseMark => assert ("-->" + rest)[3..] == rest;
      }
    }
  }

  lemma StripOne(text: string)
    requires text != "" && text[0] != '<' && text[0] != '-'
    ensures Strip(text) == [text[0]] + Strip(text[1..])
  {
    assert !("<!--" <= text) && !("-->" <= text);
  }

  lemma {:induction false} StripWord(text: string, rest: string)
    requires '<' !in text && '-' !in text
    ensures Strip(text + rest) == text + Strip(rest)
  {
    if text == "" {
      assert text + rest == rest;
    } else {
      var all := text + rest;
      assert all[0] == text[0] && all[0] in text;
      assert all[1..] == text[1..] + rest;
      StripWord(text[1..], rest);
      StripOne(all);
      hide Strip;
      assert [text[0]] + (text[1..] + Strip(rest)) == text + Strip(rest);
    }
  }

  // ----- one event more -----

  /** The reply so far is what the events show. */
  ghost predicate Tells(r: Reply, events: seq<Event>) {
    && r.text.delivered == Chunks(events) && r.text.thinking == Open(events) && r.summarySeen == Streamed(events)
    && r.reasoning == ReasoningKept(events) && r.phase == Last(Phases(events))
  }

  lemma StreamedMore(before: seq<Event>, e: Event)
    ensures Streamed(before + [e]) <==> e.SummaryDelta? || (Streamed(before) && !Ends(e))
  {
    var all, n := before + [e], |before|;
    if Streamed(all) {
      var j :| 0 <= j < |all| && all[j].SummaryDelta? && forall k | j < k < |all| :: !Ends(all[k]);
      if j < n {
        assert !Ends(all[n]);
        forall k | j < k < n ensures !Ends(before[k]) { assert all[k] == before[k]; }
        assert before[j].SummaryDelta?;
      }
    }
    if e.SummaryDelta? {
      assert all[n].SummaryDelta?;
    } else if Streamed(before) && !Ends(e) {
      var j :| 0 <= j < n && before[j].SummaryDelta? && forall k | j < k < n :: !Ends(before[k]);
      assert all[j].SummaryDelta?;
    }
  }

  lemma OpenMore(before: seq<Event>, e: Event)
    ensures Open(before + [e]) <==> (ThoughtOf(before, e) != "" && !Ends(e)) || (Open(before) && !Closes(e))
  {
    hide ThoughtOf, Closes, Ends;
    assert (before + [e])[..|before|] == before;
  }

  lemma {:induction false} SourcesAre(items: seq<Option<Item>>)
    ensures Sources(items) == ReasoningIn(items)
  {
    if items != [] {
      var front := items[..|items| - 1];
      SourcesAre(front);
      ReasoningMore(front, items[|items| - 1]);
      assert items == front + [items[|items| - 1]];
    }
  }

  lemma {:induction false} ReasoningMore(items: seq<Option<Item>>, item: Option<Item>)
    ensures ReasoningIn(items + [item]) == ReasoningIn(items) + ReasoningIn([item])
  {
    if items != [] {
      assert (items + [item])[1..] == items[1..] + [item];
      ReasoningMore(items[1..], item);
    }
  }

  lemma {:induction false} PhasesMore(items: seq<Option<Item>>, item: Option<Item>)
    ensures PhasesIn(items + [item]) == PhasesIn(items) + PhasesIn([item])
  {
    if items != [] {
      assert (items + [item])[1..] == items[1..] + [item];
      PhasesMore(items[1..], item);
    }
  }

  lemma PhasesOne(item: Option<Item>)
    ensures PhasesIn([item]) == PhaseOf(item)
  {
    assert [item][1..] == [] && PhasesIn([]) == [];
    assert PhaseOf(item) + [] == PhaseOf(item);
  }

  lemma MergedOnePhase(table: CallTable, phase: Option<string>, position: nat, item: Option<Item>)
    requires Bound(table) && MergeOne(table, phase, position, item).Some?
    ensures MergeOne(table, phase, position, item).value.1 ==
            if PhaseOf(item) == [] then phase else Last(PhaseOf(item))
  {
    hide Upsert, Bound;
  }

  /** Merging takes over the last phase that the output names. */
  lemma {:induction false} MergedPhase(table: CallTable, phase: Option<string>, items: seq<Option<Item>>)
    requires Bound(table) && MergeItems(table, phase, items).Some?
    ensures MergeItems(table, phase, items).value.1 == if PhasesIn(items) == [] then phase else Last(PhasesIn(items))
  {
    hide MergeOne, Bound, PhasesIn, PhaseOf, Last;
    if items == [] {
      assert PhasesIn([]) == [] by { NoPhases(); }
    } else {
      var n := |items| - 1;
      var front, item := items[..n], items[n];
      MergedPhase(table, phase, front);
      var before := MergeItems(table, phase, front).value;
      MergedOnePhase(before.0, before.1, n, item);
      PhasesMore(front, item);
      PhasesOne(item);
      LastOf(PhasesIn(front), PhaseOf(item));
      assert items == front + [item];
    }
  }

  lemma NoPhases()
    ensures PhasesIn([]) == []
  {
  }

  lemma LastOf(before: seq<string>, more: seq<string>)
    ensures Last(before + more) == if more == [] then Last(before) else Last(more)
  {
    assert before + [] == before;
  }

  lemma ChunksMore(before: seq<Event>, e: Event)
    ensures Chunks(before + [e]) == Chunks(before) + ChunksOf(before, e)
    ensures ReasoningKept(before + [e]) == KeptAfter(ReasoningKept(before), e)
    ensures Phases(before + [e]) == Phases(before) + PhasesOf(e)
  {
    hide ChunksOf, PhasesOf, KeptAfter;
    assert (before + [e])[..|before|] == before;
  }

  /** Showing a thought. */
  lemma ThinkShows(t: Transcript, text: string)
    ensures var u := Think(t, text);
            && u.delivered == t.delivered + (if text != "" && !t.thinking then [ThinkOpen] else [])
                                          + (if text != "" then [Thought(text)] else [])
            && u.thinking == (t.thinking || text != "")
  {
  }

  lemma ThoughtTells(r: Reply, before: seq<Event>, e: Event)
    requires Bound(r.table) && Tells(r, before) && ApplyEvent(r, e).Some? && (e.SummaryDelta? || e.SummaryDone?)
    ensures TextAfter(r, before, e, ApplyEvent(r, e).value)
  {
    hide Open, Streamed, Shown, Summarize, Think, Chunks, Bound, Answers, Thoughts, ReasoningKept, Phases, Last;
    if e.text.Some? {
      SummaryShows(r.text, e.text.value);
      ThinkShows(r.text, Shown(e.text.value));
    }
  }

  lemma ReasoningTells(r: Reply, before: seq<Event>, e: Event)
    requires Bound(r.table) && Tells(r, before) && Ends(e)
    ensures TextAfter(r, before, e, ApplyEvent(r, e).value)
  {
    hide Open, Streamed, Shown, Summarize, Think, Chunks, Bound, JoinParts, Paragraphs, ReasoningKept, Phases, Last;
    hide Upsert, Argue, MergeItems, Merge, Sources, SetPhase;
    var summary := e.item.value.summary;
    JoinedParagraphs(summary);
    SummaryShows(r.text, Paragraphs(summary));
    ThinkShows(r.text, Shown(Paragraphs(summary)));
    assert ThoughtOf(before, e) == if Open(before) then "" else Shown(Paragraphs(summary));
  }

  lemma OtherTells(r: Reply, before: seq<Event>, e: Event)
    requires Bound(r.table) && Tells(r, before) && ApplyEvent(r, e).Some?
    requires !e.SummaryDelta? && !e.SummaryDone? && !Ends(e)
    ensures TextAfter(r, before, e, ApplyEvent(r, e).value)
  {
    hide Open, Streamed, Upsert, Argue, MergeItems, Sources, Chunks, Bound, SetPhase, ReasoningKept, Phases, Last;
    assert ThoughtOf(before, e) == "";
  }

  /** The text after one event more. */
  ghost predicate TextAfter(r: Reply, before: seq<Event>, e: Event, s: Reply) {
    && s.text.delivered == r.text.delivered + ChunksOf(before, e)
    && (s.text.thinking <==> (ThoughtOf(before, e) != "" && !Ends(e)) || (Open(before) && !Closes(e)))
    && (s.summarySeen <==> e.SummaryDelta? || (Streamed(before) && !Ends(e)))
  }

  lemma TextTells(r: Reply, before: seq<Event>, e: Event)
    requires Bound(r.table) && Tells(r, before) && ApplyEvent(r, e).Some?
    ensures TextAfter(r, before, e, ApplyEvent(r, e).value)
  {
    hide Tells, ApplyEvent, TextAfter, Bound;
    if e.SummaryDelta? || e.SummaryDone? {
      ThoughtTells(r, before, e);
    } else if Ends(e) {
      ReasoningTells(r, before, e);
    } else {
      OtherTells(r, before, e);
    }
  }

  lemma ItemTells(r: Reply, e: Event)
    requires Bound(r.table) && ApplyEvent(r, e).Some? && e.ItemDone?
    ensures var s := ApplyEvent(r, e).value;
            && s.reasoning == KeptAfter(r.reasoning, e)
            && s.phase == if PhasesOf(e) == [] then r.phase else Last(PhasesOf(e))
  {
    hide Summarize, Close, Upsert, JoinParts, Bound;
    PhasesOne(e.item);
  }

  lemma CompletionTells(r: Reply, e: Event)
    requires Bound(r.table) && ApplyEvent(r, e).Some? && e.Completed?
    ensures var s := ApplyEvent(r, e).value;
            && s.reasoning == KeptAfter(r.reasoning, e)
            && s.phase == if PhasesOf(e) == [] then r.phase else Last(PhasesOf(e))
  {
    hide MergeItems, Sources, ReasoningIn, PhasesIn, Bound, Last;
    if e.output.Items? {
      SourcesAre(e.output.items);
      MergedPhase(r.table, r.phase, e.output.items);
    }
  }

  lemma StateTells(r: Reply, before: seq<Event>, e: Event)
    requires Bound(r.table) && ApplyEvent(r, e).Some?
    requires r.reasoning == ReasoningKept(before) && r.phase == Last(Phases(before))
    ensures var s := ApplyEvent(r, e).value;
            && s.reasoning == ReasoningKept(before + [e]) && s.phase == Last(Phases(before + [e]))
  {
    hide ReasoningKept, Phases, Last, Bound, Upsert, Argue, MergeItems, Sources, Summarize, Say;
    ChunksMore(before, e);
    LastOf(Phases(before), PhasesOf(e));
    if e.ItemDone? {
      ItemTells(r, e);
    } else if e.Completed? {
      CompletionTells(r, e);
    }
  }

  lemma EventTells(r: Reply, before: seq<Event>, e: Event)
    requires Bound(r.table) && Tells(r, before) && ApplyEvent(r, e).Some?
    ensures Tells(ApplyEvent(r, e).value, before + [e])
  {
    hide ApplyEvent, Chunks, ChunksOf, ThoughtOf, Open, Streamed, ReasoningKept, Phases, Last, Bound;
    TextTells(r, before, e);
    StateTells(r, before, e);
    OpenMore(before, e);
    StreamedMore(before, e);
    ChunksMore(before, e);
  }

  // ----- whole streams -----

  /** The decoded events of a stream. */
  function Events(decode: Decoder, datas: seq<string>): seq<Event> {
    if datas == [] then []
    else
      var data := datas[|datas| - 1];
      Events(decode, datas[..|datas| - 1]) +
      if data == "[DONE]" || decode(data).None? then [] else [decode(data).value]
  }

  lemma {:induction false} DatasTell(decode: Decoder, datas: seq<string>)
    requires ApplyDatas(decode, datas).Some?
    ensures Tells(ApplyDatas(decode, datas).value, Events(decode, datas))
  {
    hide ApplyEvent, Tells, Bound;
    if datas == [] {
      NothingTold();
    } else {
      var front, data := datas[..|datas| - 1], datas[|datas| - 1];
      DatasTell(decode, front);
      var r, before := ApplyDatas(decode, front).value, Events(decode, front);
      if data == "[DONE]" {
        assert before + [] == before;
        TellsOn(r, before);
      } else {
        EventTells(r, before, decode(data).value);
      }
    }
  }

  lemma NothingTold()
    ensures Tells(EMPTY, [])
  {
  }

  lemma TellsOn(r: Reply, events: seq<Event>)
    requires Tells(r, events)
    ensures Tells(r.(terminal := true), events)
  {
  }

  /** On every successful stream the callback gets exactly what the events show and, if a block is left open, its
      end; the content is that text; phase and reasoning are the last ones the events give. */
  lemma TextOfStream(decode: Decoder, bytes: string)
    requires Parse(decode, bytes).Some?
    ensures Datas(bytes).Some?
    ensures var r, events := Parse(decode, bytes).value, Events(decode, Datas(bytes).value);
            && r.text.delivered == Chunks(events) + (if Open(events) then [ThinkClose] else [])
            && r.text.content == Spelled(r.text.delivered)
            && AnswersIn(r.text.delivered) == Answers(events)
            && ThoughtsIn(r.text.delivered) == Thoughts(events)
            && r.reasoning == ReasoningKept(events) && r.phase == Last(Phases(events))
  {
    hide Datas, Parse, ApplyDatas, Chunks, Open, ReasoningKept, Phases, Last, Streamed, Answers, AnswersIn, Thoughts,
         ThoughtsIn, Spelled, Rendered, Bracketed, CallsComplete;
    ParseIsFold(decode, bytes);
    GoodReplies(decode, bytes);
    var datas, r := Datas(bytes).value, Parse(decode, bytes).value;
    var events := Events(decode, datas);
    DatasTell(decode, datas);
    RenderedIsSpelled(r.text.delivered);
    TextsInChunks(events);
    ClosedTexts(Chunks(events));
    assert Chunks(events) + [] == Chunks(events);
  }

  /** Only the second of five parts has answers, only the fourth has thoughts. */
  lemma InParts(a: seq<Chunk>, b: seq<Chunk>, c: seq<Chunk>, d: seq<Chunk>, f: seq<Chunk>)
    requires AnswersIn(a) == AnswersIn(c) == AnswersIn(d) == AnswersIn(f) == []
    requires ThoughtsIn(a) == ThoughtsIn(b) == ThoughtsIn(c) == ThoughtsIn(f) == []
    ensures AnswersIn(a + b + c + d + f) == AnswersIn(b) && ThoughtsIn(a + b + c + d + f) == ThoughtsIn(d)
  {
    hide AnswersIn, ThoughtsIn;
    InConcat(a, b);
    assert AnswersIn(a + b) == AnswersIn(b) && ThoughtsIn(a + b) == [];
    InConcat(a + b, c);
    assert AnswersIn(a + b + c) == AnswersIn(b) && ThoughtsIn(a + b + c) == [];
    InConcat(a + b + c, d);
    assert AnswersIn(a + b + c + d) == AnswersIn(b) && ThoughtsIn(a + b + c + d) == ThoughtsIn(d);
    InConcat(a + b + c + d, f);
  }

  /** One chunk, or nothing. */
  lemma AtMostOne(given: bool, chunk: Chunk)
    ensures AnswersIn(if given then [chunk] else []) == if given then AnswerOf(chunk) else []
    ensures ThoughtsIn(if given then [chunk] else []) == if given then ThinkingOf(chunk) else []
  {
    OneChunk(chunk);
  }

  lemma AnswerPart(e: Event)
    ensures var part := if e.TextDelta? && e.text.Some? then [Answer(e.text.value)] else [];
            AnswersIn(part) == (if e.TextDelta? && e.text.Some? then [e.text.value] else []) && ThoughtsIn(part) == []
  {
    if e.TextDelta? && e.text.Some? { OneChunk(Answer(e.text.value)); } else { InNone(); }
  }

  lemma TextsOfEvent(before: seq<Event>, e: Event)
    ensures AnswersIn(ChunksOf(before, e)) == if e.TextDelta? && e.text.Some? then [e.text.value] else []
    ensures ThoughtsIn(ChunksOf(before, e)) == if ThoughtOf(before, e) != "" then [ThoughtOf(before, e)] else []
  {
    hide Open, Ends, ThoughtOf, AnswersIn, ThoughtsIn;
    var thought := ThoughtOf(before, e);
    AtMostOne(e.TextDelta? && Open(before), ThinkClose);
    AnswerPart(e);
    AtMostOne(thought != "" && !Open(before), ThinkOpen);
    AtMostOne(thought != "", Thought(thought));
    AtMostOne(Ends(e) && (Open(before) || thought != ""), ThinkClose);
    InParts(if e.TextDelta? && Open(before) then [ThinkClose] else [],
            if e.TextDelta? && e.text.Some? then [Answer(e.text.value)] else [],
            if thought != "" && !Open(before) then [ThinkOpen] else [],
            if thought != "" then [Thought(thought)] else [],
            if Ends(e) && (Open(before) || thought != "") then [ThinkClose] else []);
  }

  lemma {:induction false} TextsInChunks(events: seq<Event>)
    ensures AnswersIn(Chunks(events)) == Answers(events) && ThoughtsIn(Chunks(events)) == Thoughts(events)
  {
    if events != [] {
      hide ChunksOf, ThoughtOf, AnswersIn, ThoughtsIn;
      var before, e := events[..|events| - 1], events[|events| - 1];
      TextsInChunks(before);
      InConcat(Chunks(before), ChunksOf(before, e));
      TextsOfEvent(before, e);
    } else {
      OneChunk(ThinkOpen);
    }
  }

  // ----- streams that fail -----

  /** Items no stream may bring in a finished item or a completed output. */
  predicate BadItem(item: Option<Item>) {
    item.None? || item == Some(Message(BadPhase))
  }

  /** Events that are refused wherever they come. */
  ghost predicate Malformed(e: Event) {
    match e
    case TextDelta(text) => text.None?
    case SummaryDelta(text) => text.None?
    case ItemAdded(_, item) => item.None?
    case ItemDone(_, item) => BadItem(item)
    case ArgumentsDelta(_, value) => value.None?
    case ArgumentsDone(_, value) => value.None?
    case Completed(ok, output) =>
      !ok || output.BadOutput? || (output.Items? && exists i | 0 <= i < |output.items| :: BadItem(output.items[i]))
    case RefusalDone(valid) => !valid
    case _ => false
  }

  lemma {:induction false} BadItemFails(table: CallTable, phase: Option<string>, items: seq<Option<Item>>, i: nat)
    requires Bound(table) && i < |items| && BadItem(items[i])
    ensures MergeItems(table, phase, items).None?
  {
    if i < |items| - 1 { BadItemFails(table, phase, items[..|items| - 1], i); }
  }

  lemma MalformedRefused(r: Reply, e: Event)
    requires Bound(r.table) && Malformed(e)
    ensures ApplyEvent(r, e).None?
  {
    hide Upsert, Argue, MergeItems, Sources, Summarize, Bound;
    if e.Completed? && e.output.Items? && exists i | 0 <= i < |e.output.items| :: BadItem(e.output.items[i]) {
      var i :| 0 <= i < |e.output.items| && BadItem(e.output.items[i]);
      BadItemFails(r.table, r.phase, e.output.items, i);
    }
  }

  lemma {:induction false} DatasRefused(decode: Decoder, datas: seq<string>, i: nat)
    requires i < |datas| && datas[i] != "[DONE]" && (decode(datas[i]).None? || Malformed(decode(datas[i]).value))
    ensures ApplyDatas(decode, datas).None?
  {
    hide ApplyEvent, Malformed;
    if i < |datas| - 1 {
      DatasRefused(decode, datas[..|datas| - 1], i);
    } else if ApplyDatas(decode, datas[..i]).Some? && decode(datas[i]).Some? {
      MalformedRefused(ApplyDatas(decode, datas[..i]).value, decode(datas[i]).value);
    }
  }

  lemma {:induction false} EndsOfDatas(decode: Decoder, datas: seq<string>)
    requires ApplyDatas(decode, datas).Some?
    ensures var r, events := ApplyDatas(decode, datas).value, Events(decode, datas);
            && (r.completed <==> exists e :: e in events && e.Completed?)
            && (r.failed <==> exists e :: e in events && e.Failed?)
  {
    hide ApplyEvent, Bound;
    if datas != [] {
      var front, data := datas[..|datas| - 1], datas[|datas| - 1];
      EndsOfDatas(decode, front);
      if data != "[DONE]" { EventFlags(ApplyDatas(decode, front).value, decode(data).value); }
    }
  }

  /** A successful stream is within the limits, all its data are events that can be read and none of them is
      malformed, the response is completed and does not fail. */
  lemma SuccessMeans(decode: Decoder, bytes: string)
    requires Parse(decode, bytes).Some?
    ensures |bytes| <= 33554432 && Datas(bytes).Some?
    ensures var datas := Datas(bytes).value;
            && (forall i | 0 <= i < |datas| && datas[i] != "[DONE]" ::
                  decode(datas[i]).Some? && !Malformed(decode(datas[i]).value))
            && (exists e :: e in Events(decode, datas) && e.Completed?)
            && !exists e :: e in Events(decode, datas) && e.Failed?
  {
    ParseIsFold(decode, bytes);
    assert |bytes| <= 33554432;
    hide Parse, ApplyDatas, Datas, Malformed, CallsComplete;
    var datas := Datas(bytes).value;
    EndsOfDatas(decode, datas);
    forall i | 0 <= i < |datas| && datas[i] != "[DONE]"
      ensures decode(datas[i]).Some? && !Malformed(decode(datas[i]).value)
    {
      if decode(datas[i]).None? || Malformed(decode(datas[i]).value) { DatasRefused(decode, datas, i); }
    }
  }
}
