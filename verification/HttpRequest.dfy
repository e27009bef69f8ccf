/**
 What the bytes of an HTTP request mean to the server: not enough yet, refused, or a request. A C
 string ends before its first NUL, and so does the search for the end of the headers.
 */
module HttpRequest {
  import opened Wrappers
  import opened LineFraming

  const MAX_HTTP_HEADER_SIZE := 16384
  const MAX_HTTP_BODY_SIZE := 10485760
  const METHOD_SIZE := 16
  const PATH_SIZE := 1024
  const QUERY_SIZE := 512
  const HEADERS_SIZE := 4096

  const CRLF := "\r\n"
  const BLANK := "\r\n\r\n"

  /** The head of a request: request line split, headers kept, length of the body. */
  datatype Head = Head(method_: string, path: string, query: string, headers: string, contentLength: nat)

  datatype Verdict = More | Bad | Done(head: Head, body: string)

  // ----- searching -----

  predicate Occurs(s: string, part: string, i: nat) {
    i + |part| <= |s| && s[i..i + |part|] == part
  }

  /** strstr: where `part` first occurs. */
  function Search(s: string, part: string): (r: Option<nat>)
    ensures r.Some? ==> Occurs(s, part, r.value) && r.value + |part| <= |s|
    ensures forall i: nat | Occurs(s, part, i) :: r.Some? && r.value <= i
  {
    if Occurs(s, part, 0) then Some(0)
    else if s == "" then None
    else
      var rest := Search(s[1..], part);
      assert forall i: nat | Occurs(s, part, i) :: i > 0 && Occurs(s[1..], part, i - 1) by { OccursLater(s, part); }
      if rest.None? then None
      else
        assert Occurs(s, part, rest.value + 1) by { OccursLater(s, part); }
        Some(rest.value + 1)
  }

  lemma OccursLater(s: string, part: string)
    requires s != ""
    ensures forall i: nat | Occurs(s[1..], part, i) :: Occurs(s, part, i + 1)
    ensures forall i: nat | Occurs(s, part, i) && i > 0 :: Occurs(s[1..], part, i - 1)
  {
    forall i: nat | Occurs(s[1..], part, i) ensures Occurs(s, part, i + 1) {
      assert s[1..][i..i + |part|] == s[i + 1..i + 1 + |part|];
    }
    forall i: nat | Occurs(s, part, i) && i > 0 ensures Occurs(s[1..], part, i - 1) {
      assert s[1..][i - 1..i - 1 + |part|] == s[i..i + |part|];
    }
  }

  lemma OccursInLonger(s: string, longer: string, part: string, i: nat)
    requires s <= longer && i + |part| <= |s|
    ensures Occurs(s, part, i) == Occurs(longer, part, i)
  {
    assert s[i..i + |part|] == longer[i..i + |part|];
  }

  /** memchr: where the byte first occurs, or the length. */
  function IndexOf(s: string, c: char): (i: nat)
    ensures i <= |s| && c !in s[..i] && (i < |s| ==> s[i] == c)
  {
    if s == "" || s[0] == c then 0
    else
      var rest := IndexOf(s[1..], c);
      assert s[..rest + 1] == [s[0]] + s[1..][..rest];
      rest + 1
  }

  /** The length of the head, blank line included. */
  function HeadLength(bytes: string): (n: Option<nat>)
    ensures n.Some? ==> 4 <= n.value <= |bytes|
  {
    CStringPrefix(bytes);
    var at := Search(CString(bytes), BLANK);
    if at.None? then None else Some(at.value + 4)
  }

  lemma {:induction false} CStringPrefix(bytes: string)
    ensures CString(bytes) <= bytes && '\0' !in CString(bytes)
    ensures CString(bytes) == bytes <==> '\0' !in bytes
    ensures CString(bytes) != bytes ==> bytes[|CString(bytes)|] == '\0'
  {
    if bytes != "" && bytes[0] != '\0' { CStringPrefix(bytes[1..]); }
  }

  // ----- Content-Length -----

  function Lower(c: char): char {
    if 'A' <= c <= 'Z' then (c as int + 32) as char else c
  }

  /** strncasecmp on names of equal length. */
  predicate SameName(a: string, b: string) {
    |a| == |b| && forall i | 0 <= i < |a| :: Lower(a[i]) == Lower(b[i])
  }

  predicate IsBlank(c: char) {
    c == ' ' || c == '\t'
  }

  predicate IsDigit(c: char) {
    '0' <= c <= '9'
  }

  function DigitValue(c: char): nat
    requires IsDigit(c)
  {
    c as int - '0' as int
  }

  function TrimLeft(s: string): string {
    if s != "" && IsBlank(s[0]) then TrimLeft(s[1..]) else s
  }

  function TrimRight(s: string): string {
    if s != "" && IsBlank(s[|s| - 1]) then TrimRight(s[..|s| - 1]) else s
  }

  function Decimal(digits: string): nat
    requires forall c | c in digits :: IsDigit(c)
  {
    if digits == "" then 0
    else
      assert digits[|digits| - 1] in digits;
      Decimal(digits[..|digits| - 1]) * 10 + DigitValue(digits[|digits| - 1])
  }

  /** The value of a Content-Length field: digits with blanks around them, no more than the limit. */
  function LengthOf(value: string): Option<nat> {
    var digits := TrimRight(TrimLeft(value));
    if digits != "" && (forall c | c in digits :: IsDigit(c)) && Decimal(digits) <= MAX_HTTP_BODY_SIZE
    then Some(Decimal(digits)) else None
  }

  /** One line of the head: no field of interest, a length, or a reason to refuse. */
  datatype Line = Plain | Length(n: nat) | Refused

  function ReadLine(line: string): Line {
    var colon := IndexOf(line, ':');
    if colon == |line| then Plain
    else if SameName(line[..colon], "Content-Length") then
      var n := LengthOf(line[colon + 1..]);
      if n.None? then Refused else Length(n.value)
    else if SameName(line[..colon], "Transfer-Encoding") then Refused
    else Plain
  }

  /** Where the line ends: before a CRLF, or one short of the end if there is none. */
  function LineEnd(s: string): (e: nat)
    requires s != ""
    ensures e < |s|
  {
    var at := Search(s, CRLF);
    if at.Some? then at.value else |s| - 1
  }

  /** The lengths the lines give, in their order; None if a line is refused. */
  function Lengths(head: string): Option<seq<nat>>
    decreases |head|
  {
    if head == "" then Some([])
    else
      var e := LineEnd(head);
      var line := ReadLine(head[..e]);
      var rest := if e + 1 >= |head| then Some([]) else Lengths(head[e + 2..]);
      if line.Refused? || rest.None? then None
      else Some((if line.Length? then [line.n] else []) + rest.value)
  }

  /** At most one length; no length is no body. */
  function ContentLength(head: string): Option<nat> {
    var all := Lengths(head);
    if all.None? || |all.value| > 1 then None else Some(if all.value == [] then 0 else all.value[0])
  }

  // ----- the head -----

  /** The request line cut at its first two spaces. */
  function SplitLine(line: string): Option<(string, string)> {
    var m := IndexOf(line, ' ');
    if m == |line| then None
    else
      var rest := line[m + 1..];
      var p := IndexOf(rest, ' ');
      if p == |rest| then None else Some((line[..m], rest[..p]))
  }

  /** The target cut at its first question mark; without one the query is empty. */
  function SplitTarget(target: string): (string, string) {
    var q := IndexOf(target, '?');
    (target[..q], if q == |target| then "" else target[q + 1..])
  }

  /** Each part has room for its terminator. */
  predicate PartsFit(m: string, path: string, query: string) {
    0 < |m| < METHOD_SIZE && |path| < PATH_SIZE && |query| < QUERY_SIZE
  }

  function ReadHead(head: string): Option<Head>
    requires Search(head, CRLF).Some?
  {
    var line := SplitLine(head[..Search(head, CRLF).value]);
    if line.None? then None
    else
      var (path, query) := SplitTarget(line.value.1);
      if !PartsFit(line.value.0, path, query) || ContentLength(head).None? then None
      else Some(Head(line.value.0, path, query, head, ContentLength(head).value))
  }

  lemma HeadHasLine(bytes: string)
    requires HeadLength(bytes).Some?
    ensures Search(bytes[..HeadLength(bytes).value], CRLF).Some?
  {
    hide CString;
    var n := HeadLength(bytes).value;
    var head := bytes[..n];
    CStringPrefix(bytes);
    OccursInLonger(CString(bytes), bytes, BLANK, n - 4);
    assert head[n - 4..n] == bytes[n - 4..n] == BLANK;
    assert |CRLF| == 2 && head[n - 4..n - 2] == head[n - 4..n][..2] == BLANK[..2] == CRLF;
    assert Occurs(head, CRLF, n - 4);
  }

  /** The verdict on everything received so far. */
  function Judge(bytes: string): Verdict {
    var n := HeadLength(bytes);
    if n.None? then (if |bytes| > MAX_HTTP_HEADER_SIZE then Bad else More)
    else if n.value > MAX_HTTP_HEADER_SIZE || n.value >= HEADERS_SIZE then Bad
    else
      HeadHasLine(bytes);
      var head := ReadHead(bytes[..n.value]);
      if head.None? then Bad
      else if |bytes| - n.value < head.value.contentLength then More
      else Done(head.value, bytes[n.value..n.value + head.value.contentLength])
  }

  // ----- what a verdict means -----

  lemma {:induction false} LengthsBounded(head: string)
    ensures Lengths(head).Some? ==> forall n | n in Lengths(head).value :: n <= MAX_HTTP_BODY_SIZE
    decreases |head|
  {
    hide ReadLine;
    if head != "" {
      var e := LineEnd(head);
      LineBounded(head[..e]);
      if e + 1 < |head| { LengthsBounded(head[e + 2..]); }
    }
  }

  lemma LineBounded(line: string)
    ensures ReadLine(line).Length? ==> ReadLine(line).n <= MAX_HTTP_BODY_SIZE
  {
  }

  /** A request's body is exactly as long as its one Content-Length says, follows its head at once, and is within the
      limit; the parts of the request line fit their buffers. */
  lemma BodyIsExact(bytes: string)
    requires Judge(bytes).Done?
    ensures var head, body := Judge(bytes).head, Judge(bytes).body;
            && head.headers + body <= bytes && HeadLength(bytes) == Some(|head.headers|)
            && ContentLength(head.headers) == Some(|body|) && |body| == head.contentLength <= 10485760
            && 0 < |head.method_| < 16 && |head.path| < 1024 && |head.query| < 512 && |head.headers| < 4096
  {
    hide HeadLength, ContentLength;
    ContentLengthBounded(Judge(bytes).head.headers);
  }

  lemma ContentLengthBounded(head: string)
    ensures ContentLength(head).Some? ==> ContentLength(head).value <= MAX_HTTP_BODY_SIZE
  {
    hide Lengths;
    LengthsBounded(head);
    if ContentLength(head).Some? && Lengths(head).value != [] {
      assert Lengths(head).value[0] in Lengths(head).value;
    }
  }

  lemma {:induction false} FoundAt(front: string, c: char, rest: string)
    requires c !in front
    ensures IndexOf(front + [c] + rest, c) == |front| && IndexOf(front, c) == |front|
  {
    if front != "" {
      FoundAt(front[1..], c, rest);
      assert (front + [c] + rest)[1..] == front[1..] + [c] + rest;
    }
  }

  lemma LineFound(line: string, rest: string)
    requires '\r' !in line
    ensures Search(line + CRLF + rest, CRLF) == Some(|line|)
  {
    hide Search;
    var s := line + CRLF + rest;
    assert s[|line|..|line| + |CRLF|] == CRLF;
    assert Occurs(s, CRLF, |line|);
    forall i: nat | i < |line| ensures !Occurs(s, CRLF, i) {
      assert s[i] == line[i] && line[i] in line;
      assert s[i..i + |CRLF|][0] == s[i] && CRLF[0] == '\r';
    }
  }

  /** What follows the path: nothing, or a question mark and the query. */
  function QueryPart(query: Option<string>): string {
    if query.None? then "" else "?" + query.value
  }

  lemma TargetRoundTrip(path: string, query: Option<string>)
    requires '?' !in path
    ensures SplitTarget(path + QueryPart(query)) == (path, query.GetOr(""))
  {
    hide IndexOf;
    FoundAt(path, '?', query.GetOr(""));
    if query.None? {
      assert path + "" == path;
    } else {
      assert path + ("?" + query.value) == path + "?" + query.value;
    }
  }

  lemma LineRoundTrip(m: string, target: string, version: string)
    requires ' ' !in m && ' ' !in target
    ensures SplitLine(m + " " + (target + " " + version)) == Some((m, target))
  {
    hide IndexOf;
    var rest := target + " " + version;
    FoundAt(m, ' ', rest);
    FoundAt(target, ' ', version);
    var line := m + " " + rest;
    assert line[..|m|] == m && line[|m| + 1..] == rest && rest[..|target|] == target;
  }

  /** A printed request line is read back, if its parts fit: method, path and query come out as they went in; without
      a question mark the query is empty. */
  lemma RequestLineRoundTrip(m: string, path: string, query: Option<string>, version: string, fields: string)
    requires ' ' !in m && ' ' !in path && '?' !in path && ' ' !in query.GetOr("")
    requires '\r' !in m && '\r' !in path && '\r' !in query.GetOr("") && '\r' !in version
    ensures var head := m + " " + (path + QueryPart(query) + " " + version) + CRLF + fields;
            && Search(head, CRLF).Some?
            && ReadHead(head) ==
                 if |m| == 0 || |m| >= 16 || |path| >= 1024 || |query.GetOr("")| >= 512 || ContentLength(head).None?
                 then None else Some(Head(m, path, query.GetOr(""), head, ContentLength(head).value))
  {
    hide Search, ContentLength, SplitLine, SplitTarget;
    var target := path + QueryPart(query);
    var line := m + " " + (target + " " + version);
    assert ' ' !in target && '\r' !in target && '\r' !in line;
    LineFound(line, fields);
    assert (line + CRLF + fields)[..|line|] == line;
    LineRoundTrip(m, target, version);
    TargetRoundTrip(path, query);
  }

  // ----- more bytes -----

  /** What is found stays where it is; what is found only later ends in the new part. */
  lemma SearchLonger(s: string, longer: string, part: string)
    requires s <= longer
    ensures Search(s, part).Some? ==> Search(longer, part) == Search(s, part)
    ensures Search(s, part).None? && Search(longer, part).Some? ==> Search(longer, part).value + |part| > |s|
  {
    hide Search, Occurs;
    var at, later := Search(s, part), Search(longer, part);
    if at.Some? { OccursInLonger(s, longer, part, at.value); }
    if later.Some? && later.value + |part| <= |s| { OccursInLonger(s, longer, part, later.value); }
  }

  /** A head once found stays found; one that appears later ends in the new bytes. */
  lemma HeadStays(bytes: string, more: string)
    ensures HeadLength(bytes).Some? ==> HeadLength(bytes + more) == HeadLength(bytes)
    ensures HeadLength(bytes).None? && HeadLength(bytes + more).Some? ==> HeadLength(bytes + more).value > |bytes|
  {
    hide CString, Search;
    CStringPrefix(bytes);
    CStringGrows(bytes, more);
    SearchLonger(CString(bytes), CString(bytes + more), BLANK);
  }

  lemma {:induction false} CStringGrows(bytes: string, more: string)
    ensures CString(bytes) <= CString(bytes + more)
    ensures '\0' in bytes ==> CString(bytes + more) == CString(bytes)
  {
    if bytes != "" && bytes[0] != '\0' {
      assert (bytes + more)[1..] == bytes[1..] + more;
      CStringGrows(bytes[1..], more);
    }
  }

  /** A verdict once given stays, whatever follows. */
  lemma VerdictStays(bytes: string, more: string)
    requires !Judge(bytes).More?
    ensures Judge(bytes + more) == Judge(bytes)
  {
    hide ReadHead, HeadLength;
    HeadStays(bytes, more);
    var n := HeadLength(bytes);
    if n.Some? {
      assert (bytes + more)[..n.value] == bytes[..n.value];
      if Judge(bytes).Done? {
        var m := n.value + Judge(bytes).head.contentLength;
        assert (bytes + more)[n.value..m] == bytes[n.value..m];
      }
    }
  }

  /** The verdict on fragments that arrive one after the other: the first that is not "more". */
  function FirstVerdict(chunks: seq<string>): Verdict {
    if chunks == [] then More
    else
      var before := FirstVerdict(chunks[..|chunks| - 1]);
      if before.More? then Judge(Whole(chunks)) else before
  }

  lemma JudgeNothing()
    ensures Judge("") == More
  {
    assert CString("") == "";
  }

  /** How the bytes were chunked does not matter: the first verdict is the verdict on the whole. */
  lemma {:induction false} ChunksDoNotMatter(chunks: seq<string>)
    ensures FirstVerdict(chunks) == Judge(Whole(chunks))
  {
    hide Judge;
    if chunks == [] {
      JudgeNothing();
    } else {
      var before := chunks[..|chunks| - 1];
      ChunksDoNotMatter(before);
      if !FirstVerdict(before).More? { VerdictStays(Whole(before), chunks[|chunks| - 1]); }
    }
  }
}
