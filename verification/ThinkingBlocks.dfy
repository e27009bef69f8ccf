/**
 Text with thinking blocks, as both stream parsers build it: what goes into the response's content
 also goes to the callback, and reasoning is put between markers the parser inserts.
 */
module ThinkingBlocks {

  const THINK_OPEN := "<think>\n"
  const THINK_CLOSE := "\n</think>\n\n"

  /** What on_chunk is called with: the markers, and the model's own text. */
  datatype Chunk = ThinkOpen | ThinkClose | Thought(text: string) | Answer(text: string) {

    function Render(): string {
      match this
      case ThinkOpen => THINK_OPEN
      case ThinkClose => THINK_CLOSE
      case Thought(text) => text
      case Answer(text) => text
    }
  }

  /** The content, whether a block is open, and the calls of on_chunk. */
  datatype Transcript = Transcript(content: string, thinking: bool, delivered: seq<Chunk>)

  const SILENCE := Transcript("", false, [])

  function Deliver(t: Transcript, chunk: Chunk, after: bool): Transcript {
    Transcript(t.content + chunk.Render(), after, t.delivered + [chunk])
  }

  function Close(t: Transcript): Transcript {
    if t.thinking then Deliver(t, ThinkClose, false) else t
  }

  /** Reasoning opens a block if none is open; empty reasoning does nothing. */
  function Think(t: Transcript, text: string): Transcript {
    if text == "" then t else Deliver(if t.thinking then t else Deliver(t, ThinkOpen, true), Thought(text), true)
  }

  /** An answer closes the block that is open. */
  function Say(t: Transcript, text: string): Transcript {
    Deliver(Close(t), Answer(text), false)
  }

  // ----- what it keeps -----

  function Rendered(chunks: seq<Chunk>): string {
    if chunks == [] then "" else Rendered(chunks[..|chunks| - 1]) + chunks[|chunks| - 1].Render()
  }

  /** The inserted markers strictly alternate, thoughts come only between them and answers only outside;
      `open` says whether a block is left open. */
  predicate Bracketed(chunks: seq<Chunk>, open: bool) {
    if chunks == [] then !open
    else
      var before := chunks[..|chunks| - 1];
      match chunks[|chunks| - 1]
      case ThinkOpen => open && Bracketed(before, false)
      case ThinkClose => !open && Bracketed(before, true)
      case Thought(_) => open && Bracketed(before, true)
      case Answer(_) => !open && Bracketed(before, false)
  }

  /** The content is what the callback got, and its blocks are in order. */
  predicate Faithful(t: Transcript) {
    t.content == Rendered(t.delivered) && Bracketed(t.delivered, t.thinking)
  }

  /** Whether a chunk may come, with a block open or not, and leave one open or not. */
  predicate Fits(chunk: Chunk, before: bool, after: bool) {
    match chunk
    case ThinkOpen => !before && after
    case ThinkClose => before && !after
    case Thought(_) => before && after
    case Answer(_) => !before && !after
  }

  lemma DeliverFaithful(t: Transcript, chunk: Chunk, after: bool)
    requires Faithful(t) && Fits(chunk, t.thinking, after)
    ensures Faithful(Deliver(t, chunk, after))
  {
    var delivered := t.delivered + [chunk];
    assert delivered[..|delivered| - 1] == t.delivered;
  }

  lemma CloseFaithful(t: Transcript)
    requires Faithful(t)
    ensures Faithful(Close(t)) && !Close(t).thinking
  {
    hide Faithful;
    if t.thinking { DeliverFaithful(t, ThinkClose, false); }
  }

  lemma ThinkFaithful(t: Transcript, text: string)
    requires Faithful(t)
    ensures Faithful(Think(t, text))
  {
    hide Faithful;
    if text != "" {
      if !t.thinking { DeliverFaithful(t, ThinkOpen, true); }
      DeliverFaithful(if t.thinking then t else Deliver(t, ThinkOpen, true), Thought(text), true);
    }
  }

  lemma SayFaithful(t: Transcript, text: string)
    requires Faithful(t)
    ensures Faithful(Say(t, text))
  {
    hide Faithful;
    CloseFaithful(t);
    DeliverFaithful(Close(t), Answer(text), false);
  }

  // ----- what a sequence of chunks says -----

  function AnswersIn(chunks: seq<Chunk>): seq<string> {
    if chunks == [] then [] else AnswersIn(chunks[..|chunks| - 1]) + AnswerOf(chunks[|chunks| - 1])
  }

  function AnswerOf(chunk: Chunk): seq<string> {
    if chunk.Answer? then [chunk.text] else []
  }

  function ThoughtsIn(chunks: seq<Chunk>): seq<string> {
    if chunks == [] then [] else ThoughtsIn(chunks[..|chunks| - 1]) + ThinkingOf(chunks[|chunks| - 1])
  }

  function ThinkingOf(chunk: Chunk): seq<string> {
    if chunk.Thought? then [chunk.text] else []
  }

  /** The content that the chunks add up to. */
  function Spelled(chunks: seq<Chunk>): string {
    if chunks == [] then "" else Spelled(chunks[..|chunks| - 1]) + SpelledOf(chunks[|chunks| - 1])
  }

  function SpelledOf(chunk: Chunk): string {
    match chunk
    case ThinkOpen => "<think>\n"
    case ThinkClose => "\n</think>\n\n"
    case Thought(text) => text
    case Answer(text) => text
  }

  lemma {:induction false} RenderedIsSpelled(chunks: seq<Chunk>)
    ensures Rendered(chunks) == Spelled(chunks)
  {
    if chunks != [] { RenderedIsSpelled(chunks[..|chunks| - 1]); }
  }

  lemma ClosedTexts(chunks: seq<Chunk>)
    ensures AnswersIn(chunks + [ThinkClose]) == AnswersIn(chunks)
    ensures ThoughtsIn(chunks + [ThinkClose]) == ThoughtsIn(chunks)
  {
    assert (chunks + [ThinkClose])[..|chunks|] == chunks;
  }

  lemma InMore(chunks: seq<Chunk>, chunk: Chunk)
    ensures AnswersIn(chunks + [chunk]) == AnswersIn(chunks) + AnswerOf(chunk)
    ensures ThoughtsIn(chunks + [chunk]) == ThoughtsIn(chunks) + ThinkingOf(chunk)
  {
    assert (chunks + [chunk])[..|chunks|] == chunks;
  }

  lemma InNone()
    ensures AnswersIn([]) == [] && ThoughtsIn([]) == []
  {
  }

  lemma {:induction false} InConcat(a: seq<Chunk>, b: seq<Chunk>)
    ensures AnswersIn(a + b) == AnswersIn(a) + AnswersIn(b)
    ensures ThoughtsIn(a + b) == ThoughtsIn(a) + ThoughtsIn(b)
  {
    hide AnswersIn, ThoughtsIn, AnswerOf, ThinkingOf;
    if b == [] {
      assert a + b == a;
      InNone();
    } else {
      var front, last := b[..|b| - 1], b[|b| - 1];
      InConcat(a, front);
      InMore(a + front, last);
      InMore(front, last);
      assert a + b == (a + front) + [last] && b == front + [last];
    }
  }

  lemma OneChunk(chunk: Chunk)
    ensures AnswersIn([chunk]) == AnswerOf(chunk)
    ensures ThoughtsIn([chunk]) == ThinkingOf(chunk)
    ensures AnswersIn([]) == [] && ThoughtsIn([]) == []
  {
    assert [chunk][..0] == [];
  }
}
