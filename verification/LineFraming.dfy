/**
 Cutting a byte stream into lines. Bytes are written as characters; a C string ends before its
 first NUL.
 */
module LineFraming {

  /** What follows the last newline. */
  function Tail(bytes: string): string {
    if bytes == "" then ""
    else if bytes[|bytes| - 1] == '\n' then ""
    else Tail(bytes[..|bytes| - 1]) + [bytes[|bytes| - 1]]
  }

  /** The complete lines, without their newlines. */
  function Lines(bytes: string): seq<string> {
    if bytes == "" then []
    else if bytes[|bytes| - 1] == '\n' then Lines(bytes[..|bytes| - 1]) + [Tail(bytes[..|bytes| - 1])]
    else Lines(bytes[..|bytes| - 1])
  }

  /** Lines put back together. */
  function Join(lines: seq<string>): string {
    if lines == [] then "" else Join(lines[..|lines| - 1]) + lines[|lines| - 1] + "\n"
  }

  predicate OneLine(line: string) {
    '\n' !in line
  }

  /** Lines and tail are a way to cut the bytes at the newlines. */
  lemma {:induction false} SplitJoins(bytes: string)
    ensures Join(Lines(bytes)) + Tail(bytes) == bytes
    ensures OneLine(Tail(bytes)) && forall line | line in Lines(bytes) :: OneLine(line)
  {
    if bytes != "" {
      var front, last := bytes[..|bytes| - 1], bytes[|bytes| - 1];
      SplitJoins(front);
      assert bytes == front + [last];
      if last == '\n' {
        assert Lines(bytes)[..|Lines(bytes)| - 1] == Lines(front);
        calc {
          Join(Lines(bytes)) + Tail(bytes);
          Join(Lines(front)) + Tail(front) + "\n";
          bytes;
        }
      } else {
        assert Join(Lines(front)) + (Tail(front) + [last]) == (Join(Lines(front)) + Tail(front)) + [last];
      }
    }
  }

  /** ... and the only way. */
  lemma {:induction false} SplitUnique(lines: seq<string>, tail: string)
    requires OneLine(tail) && forall line | line in lines :: OneLine(line)
    ensures Lines(Join(lines) + tail) == lines && Tail(Join(lines) + tail) == tail
    decreases |lines|, |tail|
  {
    hide Lines, Tail, Join;
    if tail != "" {
      var front, last := tail[..|tail| - 1], tail[|tail| - 1];
      assert last in tail && forall c | c in front :: c in tail;
      SplitUnique(lines, front);
      assert Join(lines) + tail == (Join(lines) + front) + [last];
      OneMore(Join(lines) + front, last);
    } else if lines != [] {
      var front, last := lines[..|lines| - 1], lines[|lines| - 1];
      assert last in lines && forall line | line in front :: line in lines;
      SplitUnique(front, last);
      JoinLast(lines);
      assert Join(lines) + tail == (Join(front) + last) + ['\n'];
      OneMore(Join(front) + last, '\n');
    } else {
      JoinNone();
    }
  }

  lemma JoinLast(lines: seq<string>)
    requires lines != []
    ensures Join(lines) == Join(lines[..|lines| - 1]) + lines[|lines| - 1] + "\n"
  {
  }

  lemma JoinNone()
    ensures Join([]) + "" == "" && Lines("") == [] && Tail("") == ""
  {
  }

  /** More bytes only add lines. */
  lemma {:induction false} LinesGrow(bytes: string, more: string)
    ensures Lines(bytes) <= Lines(bytes + more)
  {
    if more == "" {
      assert bytes + more == bytes;
    } else {
      LinesGrow(bytes, more[..|more| - 1]);
      var all := bytes + more;
      assert all[..|all| - 1] == bytes + more[..|more| - 1];
    }
  }

  lemma OneMore(bytes: string, c: char)
    ensures c == '\n' ==> Lines(bytes + [c]) == Lines(bytes) + [Tail(bytes)] && Tail(bytes + [c]) == ""
    ensures c != '\n' ==> Lines(bytes + [c]) == Lines(bytes) && Tail(bytes + [c]) == Tail(bytes) + [c]
  {
    assert (bytes + [c])[..|bytes|] == bytes;
  }

  /** The C string at the start of a buffer. */
  function CString(buffer: string): string {
    if buffer == "" || buffer[0] == '\0' then "" else [buffer[0]] + CString(buffer[1..])
  }

  lemma {:induction false} CStringEnds(text: string, rest: string)
    ensures CString(text + "\0" + rest) == CString(text)
  {
    var buffer := text + "\0" + rest;
    if text == "" {
      assert buffer[0] == '\0';
    } else {
      assert buffer[1..] == text[1..] + "\0" + rest;
      CStringEnds(text[1..], rest);
    }
  }

  lemma {:induction false} CStringWhole(text: string)
    requires '\0' !in text
    ensures CString(text) == text
  {
    if text != "" {
      CStringWhole(text[1..]);
    }
  }

  /** All fragments in one piece. */
  function Whole(fragments: seq<string>): string {
    if fragments == [] then "" else Whole(fragments[..|fragments| - 1]) + fragments[|fragments| - 1]
  }

  lemma WholeOneMore(fragments: seq<string>, n: nat)
    requires n < |fragments|
    ensures Whole(fragments[..n + 1]) == Whole(fragments[..n]) + fragments[n]
  {
    assert fragments[..n + 1][..n] == fragments[..n];
  }

  lemma {:induction false} WholeGrows(fragments: seq<string>, n: nat)
    requires n <= |fragments|
    ensures Whole(fragments[..n]) <= Whole(fragments)
    decreases |fragments| - n
  {
    if n < |fragments| {
      assert fragments[..n + 1][..n] == fragments[..n];
      WholeGrows(fragments, n + 1);
    } else {
      assert fragments[..n] == fragments;
    }
  }
}
