/**
 Server-sent events as a server may print them for the Codex parser, and what is gathered from the
 print: the data of the events, whatever the line ends, notes and single spaces.
 */
module CodexFraming {
  import opened Wrappers
  import opened LineFraming
  import opened CodexReply

  /** A line with any number of carriage returns at its end: a data field, some other field or comment, or nothing. */
  datatype SseLine = Data(spaced: bool, text: string, crs: nat) | Note(text: string, crs: nat)
    | Gap(crs: nat)

  function Returns(n: nat): string {
    if n == 0 then "" else Returns(n - 1) + "\r"
  }

  function Body(line: SseLine): string {
    match line
    case Data(spaced, text, _) => (if spaced then "data: " else "data:") + text
    case Note(text, _) => text
    case Gap(_) => ""
  }

  function Print(line: SseLine): string {
    Body(line) + Returns(line.crs)
  }

  /** A text that fits in a line and does not end in a carriage return of its own. */
  predicate Clean(text: string) {
    '\n' !in text && '\0' !in text && (text != "" ==> text[|text| - 1] != '\r')
  }

  predicate Printable(line: SseLine) {
    match line
    case Data(spaced, text, _) => Clean(text) && (!spaced && text != "" ==> text[0] != ' ')
    case Note(text, _) => Clean(text) && text != "" && !("data:" <= text)
    case Gap(_) => true
  }

  function Prints(lines: seq<SseLine>): seq<string> {
    seq(|lines|, i requires 0 <= i < |lines| => Print(lines[i]))
  }

  /** The bytes: every line ended, except the last if it is cut off. */
  function Bytes(lines: seq<SseLine>, cut: bool): string
    requires cut ==> lines != []
  {
    if cut then Join(Prints(lines[..|lines| - 1])) + Print(lines[|lines| - 1]) else Join(Prints(lines))
  }

  /** The data lines since the last gap, one below the other; nothing is put below an empty text. */
  function Pending(lines: seq<SseLine>): string {
    if lines == [] then ""
    else
      var before := Pending(lines[..|lines| - 1]);
      match lines[|lines| - 1]
      case Data(_, text, _) => if before == "" then text else before + "\n" + text
      case Note(_, _) => before
      case Gap(_) => ""
  }

  /** The data of the events that gaps have ended. */
  function Sent(lines: seq<SseLine>): seq<string> {
    if lines == [] then []
    else
      var front, last := lines[..|lines| - 1], lines[|lines| - 1];
      Sent(front) + if last.Gap? && Pending(front) != "" then [Pending(front)] else []
  }

  /** ... and of the one the end of the stream ends. */
  function Events(lines: seq<SseLine>): seq<string> {
    Sent(lines) + if Pending(lines) != "" then [Pending(lines)] else []
  }

  // ----- one line -----

  lemma OneDropped(text: string)
    ensures DropEnds(text + "\r") == DropEnds(text)
  {
    assert (text + "\r")[..|text|] == text;
  }

  lemma NoneDropped(body: string)
    requires body != "" ==> body[|body| - 1] != '\r' && body[|body| - 1] != '\n'
    ensures DropEnds(body + Returns(0)) == body
  {
    assert body + "" == body;
  }

  lemma {:induction false} ReturnsDropped(body: string, n: nat)
    requires body != "" ==> body[|body| - 1] != '\r' && body[|body| - 1] != '\n'
    ensures DropEnds(body + Returns(n)) == body
  {
    hide DropEnds;
    if n == 0 {
      NoneDropped(body);
    } else {
      ReturnsDropped(body, n - 1);
      OneDropped(body + Returns(n - 1));
      var before := Returns(n - 1);
      assert Returns(n) == before + "\r";
      assert body + (before + "\r") == (body + before) + "\r";
    }
  }

  lemma DataInBody(line: SseLine)
    requires Printable(line) && !line.Gap?
    ensures Body(line) != "" && DataOf(Body(line)) == if line.Data? then Some(line.text) else None
  {
    if line.Data? {
      assert line.spaced ==> "data:" <= "data: " + line.text && ("data: " + line.text)[6..] == line.text;
      assert !line.spaced ==> ("data:" + line.text)[5..] == line.text;
      assert !line.spaced && line.text != "" ==> Body(line)[5] != "data: "[5];
    }
  }

  lemma BodyEnds(line: SseLine)
    requires Printable(line)
    ensures Body(line) != "" ==> Body(line)[|Body(line)| - 1] != '\r' && Body(line)[|Body(line)| - 1] != '\n'
  {
    if line.Data? && line.text != "" {
      assert Body(line)[|Body(line)| - 1] == line.text[|line.text| - 1];
    }
  }

  lemma {:induction false} OnlyReturns(n: nat)
    ensures '\n' !in Returns(n) && '\0' !in Returns(n)
  {
    if n > 0 { OnlyReturns(n - 1); }
  }

  lemma PrintIsLine(line: SseLine)
    requires Printable(line)
    ensures OneLine(Print(line)) && '\0' !in Print(line)
  {
    OnlyReturns(line.crs);
    assert '\n' !in Body(line) && '\0' !in Body(line);
  }

  /** The limits that gathering keeps. */
  predicate Fits(lines: seq<SseLine>) {
    lines != [] ==>
      var front, last := lines[..|lines| - 1], lines[|lines| - 1];
      Fits(front) && |Pending(lines)| <= 4194304 && |Print(last)| < 4194304
  }

  lemma GatherBelow(data: string, text: string)
    requires |if data == "" then text else data + "\n" + text| <= 4194304
    ensures GatherLine(data, text) == Some(if data == "" then text else data + "\n" + text)
  {
    assert "" + text == text;
  }

  lemma LineGathers(front: seq<SseLine>, last: SseLine)
    requires Printable(last) && |Pending(front + [last])| <= 4194304
    ensures GatherText(Gathering(Sent(front), Pending(front)), Print(last)) ==
            Some(Gathering(Sent(front + [last]), Pending(front + [last])))
  {
    hide Sent, Pending, DropEnds, DataOf, Body, Print, Printable, GatherLine;
    assert DropEnds(Print(last)) == Body(last) by {
      BodyEnds(last);
      ReturnsDropped(Body(last), last.crs);
      PrintIs(last);
    }
    SentMore(front, last);
    PendingMore(front, last);
    assert Sent(front) + [] == Sent(front);
    if last.Gap? {
      GapBody(last);
    } else {
      DataInBody(last);
      if last.Data? { GatherBelow(Pending(front), last.text); }
    }
  }

  lemma PendingMore(front: seq<SseLine>, last: SseLine)
    ensures Pending(front + [last]) ==
            match last
            case Data(_, text, _) => if Pending(front) == "" then text else Pending(front) + "\n" + text
            case Note(_, _) => Pending(front)
            case Gap(_) => ""
  {
    assert (front + [last])[..|front|] == front;
  }

  lemma PrintIs(line: SseLine)
    ensures Print(line) == Body(line) + Returns(line.crs)
  {
  }

  lemma GapBody(line: SseLine)
    requires line.Gap?
    ensures Body(line) == ""
  {
  }

  lemma SentMore(front: seq<SseLine>, last: SseLine)
    ensures Sent(front + [last]) == Sent(front) + if last.Gap? && Pending(front) != "" then [Pending(front)] else []
  {
    hide Pending;
    assert (front + [last])[..|front|] == front;
  }

  // ----- all lines -----

  predicate AllPrintable(lines: seq<SseLine>) {
    forall i | 0 <= i < |lines| :: Printable(lines[i])
  }

  lemma FrontPrints(lines: seq<SseLine>)
    requires lines != [] && AllPrintable(lines)
    ensures var n := |lines| - 1;
            && AllPrintable(lines[..n]) && Printable(lines[n]) && lines == lines[..n] + [lines[n]]
            && Prints(lines) == Prints(lines[..n]) + [Print(lines[n])]
  {
    hide Print, Printable;
  }

  lemma {:induction false} LinesGather(lines: seq<SseLine>)
    requires Fits(lines) && AllPrintable(lines)
    ensures GatherLines(Prints(lines)) == Some(Gathering(Sent(lines), Pending(lines)))
  {
    hide GatherText, Printable, Sent, Pending, Print, Prints, AllPrintable;
    if lines != [] {
      var n := |lines| - 1;
      FrontPrints(lines);
      LinesGather(lines[..n]);
      PrintIsLine(lines[n]);
      LineGathers(lines[..n], lines[n]);
      var all := Prints(lines);
      assert all[..|all| - 1] == Prints(lines[..n]) && all[|all| - 1] == Print(lines[n]);
    } else {
      NothingGathered();
    }
  }

  lemma NothingGathered()
    ensures Prints([]) == [] && Sent([]) == [] && Pending([]) == ""
  {
  }

  lemma AllLines(lines: seq<SseLine>)
    requires AllPrintable(lines)
    ensures forall line | line in Prints(lines) :: OneLine(line)
  {
    hide Print, Printable;
    forall i | 0 <= i < |lines| ensures OneLine(Print(lines[i])) { PrintIsLine(lines[i]); }
  }

  /** Printed events are read back: within the limits, the data of a printed stream are those of its events. */
  lemma PrintedEvents(lines: seq<SseLine>, cut: bool)
    requires Fits(lines) && AllPrintable(lines)
    requires cut ==> lines != [] && Print(lines[|lines| - 1]) != ""
    requires |Bytes(lines, cut)| <= 33554432
    ensures Datas(Bytes(lines, cut)) == Some(Events(lines))
  {
    hide GatherLines, GatherText, Printable, Sent, Pending, Print, Prints, Lines, Tail, Join, AllPrintable;
    if cut {
      var n := |lines| - 1;
      FrontPrints(lines);
      LinesGather(lines[..n]);
      AllLines(lines[..n]);
      PrintIsLine(lines[n]);
      SplitUnique(Prints(lines[..n]), Print(lines[n]));
      LineGathers(lines[..n], lines[n]);
    } else {
      LinesGather(lines);
      AllLines(lines);
      SplitUnique(Prints(lines), "");
      assert Join(Prints(lines)) + "" == Join(Prints(lines));
    }
    assert Sent(lines) + [] == Sent(lines);
  }

  /** Data, and what is gathered for the next, are within the limit. */
  predicate Small(g: Gathering) {
    |g.data| <= 4194304 && forall i | 0 <= i < |g.events| :: 0 < |g.events[i]| <= 4194304
  }

  lemma LineStaysSmall(g: Gathering, raw: string)
    requires Small(g) && GatherText(g, raw).Some?
    ensures Small(GatherText(g, raw).value)
  {
    hide DropEnds, DataOf;
  }

  /** Nothing beyond the limits is gathered. */
  lemma DatasWithinLimits(bytes: string)
    requires Datas(bytes).Some?
    ensures |bytes| <= 33554432 && |Tail(bytes)| <= 4194304 && '\0' !in Tail(bytes)
    ensures forall i | 0 <= i < |Lines(bytes)| :: '\0' !in Lines(bytes)[i] && |Lines(bytes)[i]| < 4194304
    ensures var datas := Datas(bytes).value; forall i | 0 <= i < |datas| :: 0 < |datas[i]| <= 4194304
  {
    hide Lines, Tail, GatherText, GatherLines;
    FittingLines(Lines(bytes));
    if Tail(bytes) != "" { LineStaysSmall(GatherLines(Lines(bytes)).value, Tail(bytes)); }
  }

  lemma {:induction false} FittingLines(lines: seq<string>)
    requires GatherLines(lines).Some?
    ensures forall i | 0 <= i < |lines| :: '\0' !in lines[i] && |lines[i]| < 4194304
    ensures Small(GatherLines(lines).value)
  {
    hide GatherText;
    if lines != [] {
      var front := lines[..|lines| - 1];
      FittingLines(front);
      LineStaysSmall(GatherLines(front).value, lines[|lines| - 1]);
      assert forall i | 0 <= i < |front| :: lines[i] == front[i];
    }
  }
}
