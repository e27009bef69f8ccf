/**
 The streaming HTTP parser: a client's buffer that grows as bytes arrive, and fields that are set
 once the head is complete. Proved against HttpRequest.
 */
module HttpParse {
  import opened Wrappers
  import opened LineFraming
  import opened HttpRequest

  const FIRST_CAPACITY := 4096
  const SIZE_MAX := 0xFFFF_FFFF_FFFF_FFFF

  const BUFFER_LIMIT: nat := MAX_HTTP_HEADER_SIZE + MAX_HTTP_BODY_SIZE

  // ----- Content-Length -----

  lemma {:induction false} DigitsTooBig(digits: string, n: nat)
    requires n <= |digits| && forall c | c in digits :: IsDigit(c)
    ensures Decimal(digits) >= Decimal(digits[..n])
    decreases |digits| - n
  {
    if n < |digits| {
      var front := digits[..|digits| - 1];
      forall c | c in front ensures IsDigit(c) { assert c in digits; }
      DigitsTooBig(front, n);
      assert front[..n] == digits[..n];
    } else {
      assert digits[..n] == digits;
    }
  }

  /** The loops that skip blanks; the index of the first other byte from `p` on. */
  method SkipBlanks(s: string, p: nat) returns (q: nat)
    requires p <= |s|
    ensures p <= q <= |s| && TrimLeft(s[p..]) == s[q..] && (q < |s| ==> !IsBlank(s[q]))
    ensures forall i | p <= i < q :: IsBlank(s[i])
  {
    q := p;
    while q < |s| && IsBlank(s[q])
      invariant p <= q <= |s| && TrimLeft(s[p..]) == TrimLeft(s[q..])
      invariant forall i | p <= i < q :: IsBlank(s[i])
    {
      assert s[q..][1..] == s[q + 1..];
      q := q + 1;
    }
  }

  lemma {:induction false} TrimmedRight(front: string, blanks: string)
    requires forall c | c in blanks :: IsBlank(c)
    requires front == "" || !IsBlank(front[|front| - 1])
    ensures TrimRight(front + blanks) == front
  {
    if blanks == "" {
      assert front + blanks == front;
    } else {
      var all := front + blanks;
      assert all[..|all| - 1] == front + blanks[..|blanks| - 1] && all[|all| - 1] == blanks[|blanks| - 1];
      assert blanks[|blanks| - 1] in blanks;
      forall c | c in blanks[..|blanks| - 1] ensures IsBlank(c) { assert c in blanks; }
      TrimmedRight(front, blanks[..|blanks| - 1]);
    }
  }

  /** A byte that is neither a digit nor part of the blanks at the end spoils the value. */
  lemma {:induction false} TrimKeeps(s: string, i: nat)
    requires i < |s| && !IsBlank(s[i])
    ensures i < |TrimRight(s)| <= |s| && TrimRight(s) == s[..|TrimRight(s)|]
  {
    if IsBlank(s[|s| - 1]) {
      TrimKeeps(s[..|s| - 1], i);
    }
  }

  /** The part of parse_content_length that reads one value. */
  method ReadLength(value: string) returns (r: Option<nat>)
    ensures r == LengthOf(value)
  {
    hide TrimLeft, TrimRight, Decimal;
    assert value[0..] == value;
    var start := SkipBlanks(value, 0);
    ghost var rest := value[start..];
    if start == |value| {
      TrimNothing();
      return None;
    }
    var p, parsed := start, 0;
    assert value[start..start] == "";
    DecimalNothing();
    while p < |value| && IsDigit(value[p])
      invariant start <= p <= |value| && forall c | c in value[start..p] :: IsDigit(c)
      invariant parsed == Decimal(value[start..p])
    {
      DecimalMore(value[start..p], value[p]);
      assert value[start..p] + [value[p]] == value[start..p + 1];
      if parsed > (SIZE_MAX - DigitValue(value[p])) / 10 {
        assert rest[..p + 1 - start] == value[start..p + 1];
        Overflow(rest, p + 1 - start);
        return None;
      }
      parsed := parsed * 10 + DigitValue(value[p]);
      p := p + 1;
    }
    var end := SkipBlanks(value, p);
    ghost var digits := value[start..p];
    if end != |value| {
      assert rest[end - start] == value[end];
      TrimKeeps(rest, end - start);
      assert TrimRight(rest)[p - start] == value[p];
      return None;
    }
    assert rest == digits + value[p..];
    forall c | c in value[p..] ensures IsBlank(c) {}
    assert value[p - 1] in digits;
    TrimmedRight(digits, value[p..]);
    r := if parsed > MAX_HTTP_BODY_SIZE then None else Some(parsed);
  }

  /** Too many digits at the start are too many in all. */
  lemma Overflow(rest: string, n: nat)
    requires 0 < n <= |rest| && (forall c | c in rest[..n] :: IsDigit(c)) && Decimal(rest[..n]) > MAX_HTTP_BODY_SIZE
    ensures TrimLeft(rest) == rest && LengthOf(rest).None?
  {
    hide Decimal, TrimRight;
    assert rest[n - 1] in rest[..n] && rest[0] in rest[..n] by {
      assert rest[..n][n - 1] == rest[n - 1] && rest[..n][0] == rest[0];
    }
    assert TrimLeft(rest) == rest;
    TrimKeeps(rest, n - 1);
    var digits := TrimRight(rest);
    assert digits[..n] == rest[..n];
    if forall c | c in digits :: IsDigit(c) { DigitsTooBig(digits, n); }
  }

  lemma TrimNothing()
    ensures TrimRight("") == ""
  {
  }

  lemma DecimalNothing()
    ensures Decimal("") == 0
  {
  }

  lemma DecimalMore(digits: string, c: char)
    requires (forall d | d in digits :: IsDigit(d)) && IsDigit(c)
    ensures (forall d | d in digits + [c] :: IsDigit(d))
    ensures Decimal(digits + [c]) == Decimal(digits) * 10 + DigitValue(c)
  {
    assert (digits + [c])[..|digits|] == digits;
  }

  /** The field names are read up to the case of their letters. */
  method ReadLineOf(line: string) returns (r: Line)
    ensures r == ReadLine(line)
  {
    hide LengthOf;
    var colon := IndexOf(line, ':');
    if colon == |line| { return Plain; }
    var name := line[..colon];
    if SameName(name, "Content-Length") {
      var n := ReadLength(line[colon + 1..]);
      return if n.None? then Refused else Length(n.value);
    }
    if SameName(name, "Transfer-Encoding") { return Refused; }
    return Plain;
  }

  /** The loop that looks for the end of a line. */
  method FindLineEnd(head: string, line: nat) returns (lineEnd: nat)
    requires line < |head|
    ensures line <= lineEnd < |head| && lineEnd == line + LineEnd(head[line..])
  {
    hide Search, Occurs;
    lineEnd := line;
    ghost var rest := head[line..];
    while lineEnd + 1 < |head| && !(head[lineEnd] == '\r' && head[lineEnd + 1] == '\n')
      invariant line <= lineEnd < |head|
      invariant forall i: nat | i < lineEnd - line :: !Occurs(rest, CRLF, i)
    {
      NoLineEnd(rest, lineEnd - line);
      lineEnd := lineEnd + 1;
    }
    if lineEnd + 1 < |head| {
      LineEndHere(rest, lineEnd - line);
    } else {
      NoRoom(rest);
    }
  }

  lemma NoLineEnd(rest: string, i: nat)
    requires i + 1 < |rest| && !(rest[i] == '\r' && rest[i + 1] == '\n')
    ensures !Occurs(rest, CRLF, i)
  {
    assert rest[i..i + |CRLF|] == [rest[i], rest[i + 1]];
  }

  lemma LineEndHere(rest: string, i: nat)
    requires i + 1 < |rest| && rest[i] == '\r' && rest[i + 1] == '\n'
    requires forall k: nat | k < i :: !Occurs(rest, CRLF, k)
    ensures LineEnd(rest) == i
  {
    assert rest[i..i + |CRLF|] == CRLF;
    assert Occurs(rest, CRLF, i);
  }

  lemma NoRoom(rest: string)
    requires rest != "" && forall k: nat | k < |rest| - 1 :: !Occurs(rest, CRLF, k)
    ensures LineEnd(rest) == |rest| - 1
  {
  }

  /** What the lines so far and the lines to come say together. */
  function Joined(sofar: seq<nat>, rest: Option<seq<nat>>): Option<seq<nat>> {
    if rest.None? then None else Some(sofar + rest.value)
  }

  /** parse_content_length */
  method ParseContentLength(head: string) returns (r: Option<nat>)
    ensures r == ContentLength(head)
  {
    hide ReadLine, LineEnd, Lengths;
    var line, found, value := 0, false, 0;
    ghost var sofar: seq<nat> := [];
    assert head[0..] == head;
    StartJoined(Lengths(head));
    while line < |head|
      invariant 0 <= line <= |head|
      invariant sofar == (if found then [value] else []) && (!found ==> value == 0)
      invariant Joined(sofar, Lengths(head[line..])) == Lengths(head)
      decreases |head| - line
    {
      ghost var rest := head[line..];
      var lineEnd := FindLineEnd(head, line);
      assert head[line..lineEnd] == rest[..lineEnd - line];
      var parsed := ReadLineOf(head[line..lineEnd]);
      LengthsStep(sofar, rest);
      if parsed.Refused? { return None; }
      if parsed.Length? {
        if found { return None; }
        assert sofar + [parsed.n] == [parsed.n];
        value, found, sofar := parsed.n, true, [parsed.n];
      } else {
        assert sofar + [] == sofar;
      }
      if lineEnd + 1 >= |head| { return Some(value); }
      assert rest[lineEnd - line + 2..] == head[lineEnd + 2..];
      line := lineEnd + 2;
    }
    assert head[line..] == "" && sofar + [] == sofar;
    NoLengths();
    return Some(value);
  }

  lemma NoLengths()
    ensures Lengths("") == Some([])
  {
  }

  lemma StartJoined(rest: Option<seq<nat>>)
    ensures Joined([], rest) == rest
  {
    if rest.Some? { assert [] + rest.value == rest.value; }
  }

  lemma LengthsUnfold(rest: string)
    requires rest != ""
    ensures var e := LineEnd(rest);
            var line := ReadLine(rest[..e]);
            var own := if line.Length? then [line.n] else [];
            Lengths(rest) ==
            if line.Refused? then None else if e + 1 >= |rest| then Some(own) else Joined(own, Lengths(rest[e + 2..]))
  {
    hide ReadLine, LineEnd;
    var line := ReadLine(rest[..LineEnd(rest)]);
    var own := if line.Length? then [line.n] else [];
    assert own + [] == own;
  }

  lemma LengthsStep(sofar: seq<nat>, rest: string)
    requires rest != ""
    ensures var e := LineEnd(rest);
            var line := ReadLine(rest[..e]);
            var more := sofar + if line.Length? then [line.n] else [];
            Joined(sofar, Lengths(rest)) ==
            if line.Refused? then None else if e + 1 >= |rest| then Some(more) else Joined(more, Lengths(rest[e + 2..]))
  {
    hide ReadLine, LineEnd, Lengths;
    LengthsUnfold(rest);
    var e := LineEnd(rest);
    var line := ReadLine(rest[..e]);
    var own := if line.Length? then [line.n] else [];
    if !line.Refused? && e + 1 < |rest| && Lengths(rest[e + 2..]).Some? {
      assert sofar + (own + Lengths(rest[e + 2..]).value) == sofar + own + Lengths(rest[e + 2..]).value;
    }
  }

  // ----- the client -----

  class Client {
    var buf: array<char>
    var bufLen: nat
    var headersDone: bool
    var headerLen: nat
    var method_: string
    var path: string
    var query: string
    var headers: string
    var contentLength: nat
    var body: Option<string>
    ghost var received: string     // every byte so far
    ghost var parsed: string       // what the last parse has seen

    /** The buffer holds what was received, ends with a NUL, and stays within its limit. */
    ghost predicate Buffered()
      reads this, buf
    {
      && bufLen <= BUFFER_LIMIT && bufLen <= buf.Length && buf[..bufLen] == received
      && (buf.Length > 0 ==> bufLen < buf.Length && buf[bufLen] == '\0')
    }

    function HeadNow(): Head
      reads this`method_, this`path, this`query, this`headers, this`contentLength
    {
      Head(method_, path, query, headers, contentLength)
    }

    /** So far there was not enough; if the head was complete, it has been read. */
    ghost predicate Waiting()
      reads this`headersDone, this`headerLen, this`method_, this`path, this`query, this`headers, this`contentLength
      reads this`body, this`parsed
    {
      && Judge(parsed).More? && body.None?
      && HeadLength(parsed) == (if headersDone then Some(headerLen) else None)
      && (headersDone ==> HeadRead(parsed, headerLen, HeadNow()))
    }

    ghost predicate Valid()
      reads this, buf
    {
      Buffered() && Waiting() && parsed <= received
    }

    constructor ()
      ensures Valid() && received == "" && fresh(buf)
    {
      JudgeNothing();
      buf, bufLen, headersDone, headerLen := new char[0], 0, false, 0;
      method_, path, query, headers, contentLength, body := "", "", "", "", 0, None;
      received, parsed := "", "";
    }

    /** The doubling: what the buffer holds stays. */
    method Reserve(needed: nat)
      requires bufLen <= buf.Length && bufLen < needed
      modifies this`buf
      ensures needed <= buf.Length && (buf == old(buf) || fresh(buf)) && buf[..bufLen] == old(buf[..bufLen])
    {
      if needed > buf.Length {
        var capacity := if buf.Length > 0 then buf.Length else FIRST_CAPACITY;
        while capacity < needed
          invariant capacity > 0
          decreases needed - capacity
        {
          capacity := capacity * 2;
        }
        var grown := new char[capacity];
        forall i | 0 <= i < bufLen { grown[i] := buf[i]; }
        buf := grown;
      }
    }

    /** client_append */
    method Append(data: string) returns (ok: bool)
      requires Buffered()
      modifies this`buf, this`bufLen, this`received, buf
      ensures Buffered() && (buf == old(buf) || fresh(buf)) && (ok <==> |old(received)| + |data| <= BUFFER_LIMIT)
      ensures received == if ok then old(received) + data else old(received)
      ensures ok ==> buf.Length > 0
    {
      var needed := bufLen + |data| + 1;
      if needed > BUFFER_LIMIT + 1 { return false; }
      Reserve(needed);
      CopyIn(data);
      bufLen := bufLen + |data|;
      buf[bufLen] := '\0';
      received := received + data;
      return true;
    }

    /** memcpy */
    method CopyIn(data: string)
      requires bufLen + |data| < buf.Length
      modifies buf
      ensures buf[..bufLen + |data|] == old(buf[..bufLen]) + data
    {
      ghost var before := buf[..bufLen];
      forall i | 0 <= i < |data| { buf[bufLen + i] := data[i]; }
      assert buf[..bufLen] == before && buf[bufLen..bufLen + |data|] == data;
      assert buf[..bufLen + |data|] == buf[..bufLen] + buf[bufLen..bufLen + |data|];
    }

    /** The head, if it is there: read once, kept after that. */
    method LookForHead() returns (rc: int)
      requires Valid() && buf.Length > 0
      modifies this`headersDone, this`headerLen, this`method_, this`path, this`query, this`headers, this`contentLength
      ensures rc == 1 ==> headersDone && HeadRead(received, headerLen, HeadNow())
      ensures rc != 1 ==> rc == Code(Judge(received)) && !old(headersDone)
      ensures rc == 0 ==> HeadLength(received).None? && !headersDone
    {
      hide ReadHead, Search, HeadLength;
      assert received == parsed + received[|parsed|..];
      if headersDone {
        HeadReadStays(parsed, received[|parsed|..], headerLen, HeadNow());
        return 1;
      }
      var end := FindHead();
      if end.None? { return if bufLen > MAX_HTTP_HEADER_SIZE then -1 else 0; }
      if end.value > MAX_HTTP_HEADER_SIZE || end.value >= HEADERS_SIZE { return -1; }
      HeadHasLine(received);
      assert end.value <= |received| by { HeadFits(received); }
      assert buf[..end.value] == received[..end.value];
      var head := SplitHead(buf[..end.value]);
      if head.None? { return -1; }
      method_, path, query := head.value.method_, head.value.path, head.value.query;
      headers, contentLength := head.value.headers, head.value.contentLength;
      headerLen, headersDone := end.value, true;
      return 1;
    }

    /** parse_http */
    method Parse() returns (rc: int)
      requires Valid() && buf.Length > 0
      modifies this
      ensures buf == old(buf) && bufLen == old(bufLen) && received == old(received)
      ensures rc == Code(Judge(received))
      ensures rc == 0 ==> Valid()
      ensures rc == 1 ==> Judge(received) == Done(HeadNow(), body.GetOr(""))
    {
      hide Judge, HeadRead, HeadLength;
      rc := LookForHead();
      if rc == 1 {
        HeadIsRead(received, headerLen, HeadNow());
        if bufLen - headerLen < contentLength {
          rc := 0;
        } else {
          ghost var n := headerLen + contentLength;
          assert buf[..bufLen] == received && n <= bufLen;
          assert forall k | headerLen <= k < n :: buf[k] == received[k];
          assert buf[headerLen..n] == received[headerLen..n];
          if contentLength > 0 { body := Some(buf[headerLen..headerLen + contentLength]); }
        }
      }
      parsed := received;
    }

    /** strstr on the buffer: it looks no further than the first NUL. */
    method FindHead() returns (end: Option<nat>)
      requires Buffered() && buf.Length > 0
      ensures end == HeadLength(received)
    {
      var text := CString(buf[..]);
      assert buf[..] == received + "\0" + buf[bufLen + 1..];
      CStringEnds(received, buf[bufLen + 1..]);
      var at := Search(text, BLANK);
      end := if at.None? then None else Some(at.value + 4);
    }
  }

  lemma HeadFits(bytes: string)
    ensures HeadLength(bytes).Some? ==> HeadLength(bytes).value <= |bytes|
  {
  }

  /** The request line cut at its spaces, the target at its question mark, each with room for a terminator. */
  method SplitHead(head: string) returns (r: Option<Head>)
    requires Search(head, CRLF).Some?
    ensures r == ReadHead(head)
  {
    hide Search, ContentLength;
    var line := head[..Search(head, CRLF).value];
    var m := IndexOf(line, ' ');
    if m == |line| { return None; }
    var rest := line[m + 1..];
    var p := IndexOf(rest, ' ');
    if p == |rest| { return None; }
    if m == 0 || m >= METHOD_SIZE { return None; }
    var target := rest[..p];
    var q := IndexOf(target, '?');
    if q >= PATH_SIZE { return None; }
    var query := "";
    if q < |target| {
      if |target| - q - 1 >= QUERY_SIZE { return None; }
      query := target[q + 1..];
    }
    var contentLength := ParseContentLength(head);
    if contentLength.None? { return None; }
    return Some(Head(line[..m], target[..q], query, head, contentLength.value));
  }

  function Code(v: Verdict): (c: int)
    ensures -1 <= c <= 1
  {
    match v
    case More => 0
    case Bad => -1
    case Done(_, _) => 1
  }

  /** The head of these bytes is this long and says this. */
  predicate HeadRead(bytes: string, n: nat, head: Head) {
    && HeadLength(bytes) == Some(n) && n < HEADERS_SIZE
    && Search(bytes[..n], CRLF).Some? && ReadHead(bytes[..n]) == Some(head)
  }

  lemma HeadIsRead(bytes: string, n: nat, head: Head)
    requires HeadRead(bytes, n, head)
    ensures n <= |bytes| && HeadLength(bytes) == Some(n)
    ensures Judge(bytes) ==
              if |bytes| - n < head.contentLength then More else Done(head, bytes[n..n + head.contentLength])
  {
  }

  lemma HeadReadStays(bytes: string, more: string, n: nat, head: Head)
    requires HeadRead(bytes, n, head)
    ensures HeadRead(bytes + more, n, head)
    ensures var all := bytes + more;
            Judge(all) == if |all| - n < head.contentLength then More else Done(head, all[n..n + head.contentLength])
  {
    HeadStays(bytes, more);
    assert (bytes + more)[..n] == bytes[..n];
    HeadIsRead(bytes + more, n, head);
  }

  // ----- chunks -----

  /** The first verdict, when the buffer can also overflow. */
  function Capped(chunks: seq<string>): Verdict {
    if chunks == [] then More
    else
      var before := Capped(chunks[..|chunks| - 1]);
      if !before.More? then before
      else if |Whole(chunks)| > BUFFER_LIMIT then Bad
      else Judge(Whole(chunks))
  }

  lemma {:induction false} CappedWithinLimit(chunks: seq<string>)
    requires |Whole(chunks)| <= BUFFER_LIMIT
    ensures Capped(chunks) == Judge(Whole(chunks))
  {
    hide Judge;
    ChunksDoNotMatter(chunks);
    if chunks != [] {
      CappedWithinLimit(chunks[..|chunks| - 1]);
      ChunksDoNotMatter(chunks[..|chunks| - 1]);
    }
  }

  /** The chunk that would overflow the buffer is never looked at: what counts is the verdict before it. */
  lemma CappedBeyondLimit(chunks: seq<string>, n: nat)
    requires n < |chunks| && |Whole(chunks[..n])| <= BUFFER_LIMIT < |Whole(chunks[..n + 1])|
    ensures var before := Judge(Whole(chunks[..n])); Capped(chunks) == if before.More? then Bad else before
  {
    hide Judge, Whole, Capped;
    CappedWithinLimit(chunks[..n]);
    if Judge(Whole(chunks[..n])).More? {
      CappedOneMore(chunks, n);
      CappedStays(chunks, n + 1);
    } else {
      CappedStays(chunks, n);
    }
  }

  /** The read callback of the server: append, parse, stop at the first verdict or when the buffer is full. Whatever the
      chunks, a stream within the limit gets the verdict that it gets in one piece; beyond it, the verdict of the
      chunks within the limit, or a refusal if they are not enough. */
  method ParseChunks(chunks: seq<string>) returns (verdict: Verdict)
    ensures |Whole(chunks)| <= 10502144 ==> verdict == Judge(Whole(chunks))
    ensures forall n | 0 <= n < |chunks| && |Whole(chunks[..n])| <= 10502144 < |Whole(chunks[..n + 1])| ::
        verdict == if Judge(Whole(chunks[..n])).More? then Bad else Judge(Whole(chunks[..n]))
  {
    hide Judge, Capped, Whole, Client.Buffered, Client.Waiting;
    if |Whole(chunks)| <= BUFFER_LIMIT { CappedWithinLimit(chunks); }
    forall n | 0 <= n < |chunks| && |Whole(chunks[..n])| <= BUFFER_LIMIT < |Whole(chunks[..n + 1])|
      ensures Capped(chunks) == if Judge(Whole(chunks[..n])).More? then Bad else Judge(Whole(chunks[..n]))
    {
      CappedBeyondLimit(chunks, n);
    }
    var client := new Client();
    var i := 0;
    CappedNothing();
    while i < |chunks|
      invariant 0 <= i <= |chunks|
      invariant client.Valid() && client.received == Whole(chunks[..i]) && Capped(chunks[..i]).More?
      invariant fresh(client) && fresh(client.buf)
    {
      WholeOneMore(chunks, i);
      CappedOneMore(chunks, i);
      var ok := client.Append(chunks[i]);
      if !ok {
        CappedStays(chunks, i + 1);
        return Bad;
      }
      var rc := client.Parse();
      if rc != 0 {
        CappedStays(chunks, i + 1);
        verdict := if rc == 1 then Done(client.HeadNow(), client.body.GetOr("")) else Bad;
        return;
      }
      i := i + 1;
    }
    assert chunks[..i] == chunks;
    return More;
  }

  lemma CappedNothing()
    ensures Capped([]).More? && Whole([]) == ""
  {
  }

  lemma CappedOneMore(chunks: seq<string>, n: nat)
    requires n < |chunks| && Capped(chunks[..n]).More?
    ensures Capped(chunks[..n + 1]) ==
              if |Whole(chunks[..n + 1])| > BUFFER_LIMIT then Bad else Judge(Whole(chunks[..n + 1]))
  {
    assert chunks[..n + 1][..n] == chunks[..n];
  }

  lemma {:induction false} CappedStays(chunks: seq<string>, n: nat)
    requires n <= |chunks| && !Capped(chunks[..n]).More?
    ensures Capped(chunks) == Capped(chunks[..n])
    decreases |chunks| - n
  {
    if n < |chunks| {
      assert chunks[..n + 1][..n] == chunks[..n];
      CappedStays(chunks, n + 1);
    } else {
      assert chunks[..n] == chunks;
    }
  }
}
