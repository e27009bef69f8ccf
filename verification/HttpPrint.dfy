/**
 HTTP requests as a client prints them, and what the parser makes of the print: numbers, fields up
 to the case of their names, heads, and bodies of exactly the length announced.
 */
module HttpPrint {
  import opened Wrappers
  import opened LineFraming
  import opened HttpRequest

  // ----- numbers -----

  function DigitOf(n: nat): char
    requires n < 10
  {
    "0123456789"[n]
  }

  /** The number as it is written, without leading zeros. */
  function Digits(n: nat): string {
    if n < 10 then [DigitOf(n)] else Digits(n / 10) + [DigitOf(n % 10)]
  }

  function Zeros(z: nat): string {
    if z == 0 then "" else Zeros(z - 1) + "0"
  }

  predicate Blanks(text: string) {
    forall c | c in text :: c == ' ' || c == '\t'
  }

  /** The value is the number n, perhaps with leading zeros, between blanks. */
  ghost predicate IsNumber(value: string, n: nat) {
    exists before, z, after :: Spells(value, n, before, z, after)
  }

  predicate Spells(value: string, n: nat, before: string, z: nat, after: string) {
    Blanks(before) && Blanks(after) && value == before + (Zeros(z) + Digits(n)) + after
  }

  lemma DigitOfValue(n: nat)
    requires n < 10
    ensures IsDigit(DigitOf(n)) && DigitValue(DigitOf(n)) == n && !IsBlank(DigitOf(n))
  {
  }

  lemma ValueOfDigit(c: char)
    requires IsDigit(c)
    ensures DigitValue(c) < 10 && DigitOf(DigitValue(c)) == c
  {
  }

  predicate AllDigits(text: string) {
    forall c | c in text :: IsDigit(c)
  }

  lemma DecimalOneMore(digits: string, c: char)
    requires AllDigits(digits) && IsDigit(c)
    ensures AllDigits(digits + [c]) && Decimal(digits + [c]) == Decimal(digits) * 10 + DigitValue(c)
  {
    assert (digits + [c])[..|digits|] == digits;
  }

  lemma {:induction false} PrintedNumber(z: nat, n: nat)
    ensures var text := Zeros(z) + Digits(n);
            text != "" && AllDigits(text) && Decimal(text) == n
    decreases n, z
  {
    hide Decimal, DigitOf;
    if n >= 10 {
      PrintedNumber(z, n / 10);
      DigitOfValue(n % 10);
      DecimalOneMore(Zeros(z) + Digits(n / 10), DigitOf(n % 10));
      assert Zeros(z) + Digits(n) == (Zeros(z) + Digits(n / 10)) + [DigitOf(n % 10)];
    } else {
      OnlyZeros(z);
      DigitOfValue(n);
      DecimalOneMore(Zeros(z), DigitOf(n));
    }
  }

  lemma {:induction false} OnlyZeros(z: nat)
    ensures AllDigits(Zeros(z)) && Decimal(Zeros(z)) == 0
  {
    if z > 0 {
      OnlyZeros(z - 1);
      DecimalOneMore(Zeros(z - 1), '0');
    }
  }

  lemma DigitsMore(n: nat, d: nat)
    requires d < 10
    ensures Digits(n * 10 + d) == (if n == 0 then "" else Digits(n)) + [DigitOf(d)]
  {
    hide DigitOf;
    assert n > 0 ==> (n * 10 + d) / 10 == n && (n * 10 + d) % 10 == d;
  }

  /** One digit more. */
  lemma PrintedMore(front: string, z: nat, n: nat, c: char) returns (z': nat)
    requires front == Zeros(z) + Digits(n) && IsDigit(c)
    ensures front + [c] == Zeros(z') + Digits(n * 10 + DigitValue(c))
  {
    ValueOfDigit(c);
    DigitsMore(n, DigitValue(c));
    hide Digits, IsDigit, DigitOf;
    if n == 0 {
      NoDigits();
      z' := z + 1;
      assert Zeros(z') == Zeros(z) + "0" == front;
    } else {
      z' := z;
      assert (Zeros(z) + Digits(n)) + [c] == Zeros(z) + (Digits(n) + [c]);
    }
  }

  lemma {:induction false} NumberPrinted(digits: string) returns (z: nat)
    requires digits != "" && AllDigits(digits)
    ensures digits == Zeros(z) + Digits(Decimal(digits))
  {
    hide Decimal, Digits, Zeros, IsDigit;
    var front, c := digits[..|digits| - 1], digits[|digits| - 1];
    assert digits == front + [c] && c in digits && AllDigits(front);
    DecimalOneMore(front, c);
    if front == "" {
      OnlyZeros(0);
      NoZeros();
      ValueOfDigit(c);
      DigitsMore(0, DigitValue(c));
      z := 0;
      assert "" + [c] == [c];
    } else {
      z := NumberPrinted(front);
      z := PrintedMore(front, z, Decimal(front), c);
    }
  }

  lemma NoZeros()
    ensures Zeros(0) == ""
  {
  }

  lemma NoDigits()
    ensures Digits(0) == "0"
  {
  }

  lemma BlankPart(blanks: string, i: nat, j: nat)
    requires Blanks(blanks) && i <= j <= |blanks|
    ensures Blanks(blanks[i..j])
  {
    assert forall c | c in blanks[i..j] :: c in blanks;
  }

  lemma {:induction false} TrimsLeft(blanks: string, rest: string)
    requires Blanks(blanks) && (rest != "" ==> !IsBlank(rest[0]))
    ensures TrimLeft(blanks + rest) == rest
  {
    if blanks == "" {
      assert blanks + rest == rest;
    } else {
      assert blanks[0] in blanks && (blanks + rest)[1..] == blanks[1..] + rest;
      BlankPart(blanks, 1, |blanks|);
      assert blanks[1..] == blanks[1..|blanks|];
      TrimsLeft(blanks[1..], rest);
    }
  }

  lemma {:induction false} TrimsRight(front: string, blanks: string)
    requires Blanks(blanks) && (front != "" ==> !IsBlank(front[|front| - 1]))
    ensures TrimRight(front + blanks) == front
  {
    if blanks == "" {
      assert front + blanks == front;
    } else {
      var all := front + blanks;
      assert all[..|all| - 1] == front + blanks[..|blanks| - 1] && all[|all| - 1] == blanks[|blanks| - 1];
      assert blanks[|blanks| - 1] in blanks;
      BlankPart(blanks, 0, |blanks| - 1);
      assert blanks[..|blanks| - 1] == blanks[0..|blanks| - 1];
      TrimsRight(front, blanks[..|blanks| - 1]);
    }
  }

  lemma {:induction false} LeftTrimmed(s: string) returns (blanks: string)
    ensures Blanks(blanks) && s == blanks + TrimLeft(s)
  {
    if s != "" && IsBlank(s[0]) {
      var more := LeftTrimmed(s[1..]);
      blanks := [s[0]] + more;
    } else {
      blanks := "";
    }
  }

  lemma {:induction false} RightTrimmed(s: string) returns (blanks: string)
    ensures Blanks(blanks) && s == TrimRight(s) + blanks
  {
    if s != "" && IsBlank(s[|s| - 1]) {
      var more := RightTrimmed(s[..|s| - 1]);
      blanks := more + [s[|s| - 1]];
      assert s == s[..|s| - 1] + [s[|s| - 1]];
    } else {
      blanks := "";
    }
  }

  lemma DigitsAreNotBlank(text: string)
    requires text != "" && AllDigits(text)
    ensures !IsBlank(text[0]) && !IsBlank(text[|text| - 1])
  {
    assert text[0] in text && text[|text| - 1] in text;
  }

  /** A Content-Length value is accepted exactly if it is a number within the limit between blanks. */
  lemma LengthOfExact(value: string, n: nat)
    ensures LengthOf(value) == Some(n) <==> n <= 10485760 && IsNumber(value, n)
  {
    hide TrimLeft, TrimRight, Decimal, Digits, Zeros;
    if LengthOf(value) == Some(n) {
      var before := LeftTrimmed(value);
      var after := RightTrimmed(TrimLeft(value));
      var digits := TrimRight(TrimLeft(value));
      var z := NumberPrinted(digits);
      assert Spells(value, n, before, z, after);
    }
    if IsNumber(value, n) && n <= 10485760 {
      var before, z, after :| Spells(value, n, before, z, after);
      var digits := Zeros(z) + Digits(n);
      PrintedNumber(z, n);
      DigitsAreNotBlank(digits);
      assert value == before + (digits + after) && (digits + after)[0] == digits[0];
      TrimsLeft(before, digits + after);
      TrimsRight(digits, after);
    }
  }

  // ----- fields -----

  /** The line is a field of that name, given in both cases. */
  predicate Named(line: string, lower: string, upper: string)
    requires |lower| == |upper|
  {
    && |lower| < |line| && line[|lower|] == ':'
    && forall i | 0 <= i < |lower| :: line[i] == lower[i] || line[i] == upper[i]
  }

  predicate IsLength(line: string) {
    Named(line, "content-length", "CONTENT-LENGTH")
  }

  /** What follows the colon of a Content-Length field. */
  function LengthValue(line: string): string {
    if |line| < 15 then "" else line[15..]
  }

  predicate IsEncoding(line: string) {
    Named(line, "transfer-encoding", "TRANSFER-ENCODING")
  }

  /** A character is one of a letter's two cases. */
  lemma Cases(c: char, lower: char, upper: char, name: char)
    requires (lower == upper == name == '-') || ('a' <= lower <= 'z' && lower as int == upper as int + 32
                                                 && (name == lower || name == upper))
    ensures Lower(c) == Lower(name) <==> c == lower || c == upper
  {
  }

  lemma NamesLength(text: string)
    ensures SameName(text, "Content-Length") <==>
            |text| == 14 && forall i | 0 <= i < 14 :: text[i] == "content-length"[i] || text[i] == "CONTENT-LENGTH"[i]
  {
    hide Lower;
    var name, lower, upper := "Content-Length", "content-length", "CONTENT-LENGTH";
    if |text| == 14 {
      forall i | 0 <= i < 14 ensures Lower(text[i]) == Lower(name[i]) <==> text[i] == lower[i] || text[i] == upper[i] {
        Cases(text[i], lower[i], upper[i], name[i]);
      }
    }
  }

  lemma NamesEncoding(text: string)
    ensures SameName(text, "Transfer-Encoding") <==>
            && |text| == 17
            && forall i | 0 <= i < 17 :: text[i] == "transfer-encoding"[i] || text[i] == "TRANSFER-ENCODING"[i]
  {
    hide Lower;
    var name, lower, upper := "Transfer-Encoding", "transfer-encoding", "TRANSFER-ENCODING";
    if |text| == 17 {
      forall i | 0 <= i < 17 ensures Lower(text[i]) == Lower(name[i]) <==> text[i] == lower[i] || text[i] == upper[i] {
        Cases(text[i], lower[i], upper[i], name[i]);
      }
    }
  }

  lemma ColonAt(line: string, n: nat)
    requires n < |line| && line[n] == ':' && ':' !in line[..n]
    ensures IndexOf(line, ':') == n
  {
    hide IndexOf;
    var i := IndexOf(line, ':');
    assert forall k | 0 <= k < n :: line[k] in line[..n];
    assert forall k | 0 <= k < i :: line[k] in line[..i];
  }

  lemma LengthLine(line: string)
    requires IsLength(line)
    ensures ReadLine(line) == match LengthOf(LengthValue(line)) case Some(n) => Length(n) case None => Refused
  {
    hide IndexOf, SameName, LengthOf;
    forall i | 0 <= i < 14 ensures line[i] != ':' {}
    ColonAt(line, 14);
    NamesLength(line[..14]);
  }

  lemma EncodingLine(line: string)
    requires IsEncoding(line)
    ensures ReadLine(line) == Refused
  {
    hide IndexOf, SameName, LengthOf;
    forall i | 0 <= i < 17 ensures line[i] != ':' {}
    ColonAt(line, 17);
    NamesEncoding(line[..17]);
    NamesLength(line[..17]);
  }

  lemma PlainLine(line: string)
    requires !IsLength(line) && !IsEncoding(line)
    ensures ReadLine(line) == Plain
  {
    hide IndexOf, SameName, LengthOf;
    var colon := IndexOf(line, ':');
    NamesLength(line[..colon]);
    NamesEncoding(line[..colon]);
  }

  /** What a line says, whichever case its name is written in. */
  lemma LineSays(line: string)
    ensures IsLength(line) ==>
              ReadLine(line) == match LengthOf(LengthValue(line)) case Some(n) => Length(n) case None => Refused
    ensures IsEncoding(line) ==> ReadLine(line) == Refused
    ensures !IsLength(line) && !IsEncoding(line) ==> ReadLine(line) == Plain
  {
    hide ReadLine, IsLength, IsEncoding, LengthOf;
    if IsLength(line) { LengthLine(line); }
    if IsEncoding(line) { EncodingLine(line); }
    if !IsLength(line) && !IsEncoding(line) { PlainLine(line); }
  }

  // ----- heads -----

  /** Lines, each with its end. */
  function Ended(lines: seq<string>): string {
    if lines == [] then "" else lines[0] + CRLF + Ended(lines[1..])
  }

  predicate Sendable(line: string) {
    '\r' !in line && '\0' !in line
  }

  /** What the lines say one by one; None if one is refused. */
  function Said(lines: seq<string>): Option<seq<nat>> {
    if lines == [] then Some([])
    else
      var line, rest := ReadLine(lines[0]), Said(lines[1..]);
      if line.Refused? || rest.None? then None
      else Some((if line.Length? then [line.n] else []) + rest.value)
  }

  lemma LengthsOfLine(line: string, rest: string)
    requires '\r' !in line
    ensures var said := ReadLine(line);
            Lengths(line + CRLF + rest) ==
            if said.Refused? || Lengths(rest).None? then None
            else Some((if said.Length? then [said.n] else []) + Lengths(rest).value)
  {
    hide Search, ReadLine;
    var head := line + CRLF + rest;
    LineFound(line, rest);
    assert LineEnd(head) == |line| && head[..|line|] == line && head[|line| + 2..] == rest;
  }

  lemma {:induction false} LengthsOfLines(lines: seq<string>)
    requires forall i | 0 <= i < |lines| :: Sendable(lines[i])
    ensures Lengths(Ended(lines)) == Said(lines)
  {
    hide ReadLine;
    if lines != [] {
      hide Lengths;
      LengthsOfLines(lines[1..]);
      LengthsOfLine(lines[0], Ended(lines[1..]));
    }
  }

  lemma {:induction false} EndedMore(lines: seq<string>, line: string)
    ensures Ended(lines + [line]) == Ended(lines) + line + CRLF
  {
    if lines == [] {
      assert ([line])[1..] == [];
    } else {
      assert (lines + [line])[1..] == lines[1..] + [line];
      EndedMore(lines[1..], line);
    }
  }

  lemma {:induction false} EndedLine(lines: seq<string>)
    requires lines != []
    ensures Ended(lines + [""]) == Ended(lines) + CRLF
  {
    EndedMore(lines, "");
    assert Ended(lines) + "" == Ended(lines);
  }

  /** No blank line occurs among lines that are not empty. */
  lemma {:induction false} BlankLineIsLast(lines: seq<string>, rest: string)
    requires lines != [] && (forall i | 0 <= i < |lines| :: Sendable(lines[i]))
    requires forall i | 0 < i < |lines| :: lines[i] != ""
    ensures var s := Ended(lines) + (CRLF + rest);
            && Occurs(s, BLANK, |Ended(lines)| - 2)
            && forall i: nat | i < |Ended(lines)| - 2 :: !Occurs(s, BLANK, i)
    decreases |lines|
  {
    hide Occurs, Ended;
    var line, more := lines[0], Ended(lines[1..]) + (CRLF + rest);
    var s := Ended(lines) + (CRLF + rest);
    assert s == line + CRLF + more && |Ended(lines)| == |line| + 2 + |Ended(lines[1..])| by { EndedFirst(lines); }
    forall i: nat | i < |line| + 2 ensures Occurs(s, BLANK, i) <==> i == |line| && CRLF <= more {
      BlankInLine(line, more, i);
    }
    if |lines| == 1 {
      assert Ended([]) == "" by { EndedNone(); }
      assert CRLF <= more;
    } else {
      EndedFirst(lines[1..]);
      assert lines[1..][0] == lines[1] && lines[1][0] in lines[1];
      assert more[0] == lines[1][0] != CRLF[0];
      BlankLineIsLast(lines[1..], rest);
      forall i: nat | i >= |line| + 2 ensures Occurs(s, BLANK, i) <==> Occurs(more, BLANK, i - |line| - 2) {
        OccursAfter(line + CRLF, more, BLANK, i - |line| - 2);
      }
    }
  }

  lemma EndedNone()
    ensures Ended([]) == ""
  {
  }

  lemma EndedFirst(lines: seq<string>)
    requires lines != []
    ensures Ended(lines) == lines[0] + CRLF + Ended(lines[1..])
  {
  }

  lemma OccursAfter(front: string, s: string, part: string, i: nat)
    ensures Occurs(front + s, part, |front| + i) <==> Occurs(s, part, i)
  {
    if i + |part| <= |s| {
      assert (front + s)[|front| + i..|front| + i + |part|] == s[i..i + |part|];
    }
  }

  lemma BlankInLine(line: string, more: string, i: nat)
    requires '\r' !in line && i < |line| + 2
    ensures Occurs(line + CRLF + more, BLANK, i) <==> i == |line| && CRLF <= more
  {
    var s := line + CRLF + more;
    assert |BLANK| == 4 && |CRLF| == 2 && BLANK == CRLF + CRLF;
    if i < |line| {
      assert s[i] == line[i] && line[i] in line;
      assert i + 4 <= |s| ==> s[i..i + 4][0] == s[i] != BLANK[0];
    } else if i == |line| {
      assert |more| >= 2 ==> s[i..i + 4] == CRLF + more[..2];
      assert CRLF <= more ==> more[..2] == CRLF;
      assert |more| >= 2 && CRLF + more[..2] == BLANK ==> more[..2] == BLANK[2..] == CRLF;
    } else {
      assert i + 4 <= |s| ==> s[i..i + 4][0] == s[i] == '\n' != BLANK[0];
    }
  }

  lemma {:induction false} CStringAfter(text: string, rest: string)
    requires '\0' !in text
    ensures CString(text + rest) == text + CString(rest)
  {
    if text == "" {
      assert text + rest == rest;
    } else {
      assert text[0] in text && (text + rest)[1..] == text[1..] + rest;
      CStringAfter(text[1..], rest);
    }
  }

  lemma {:induction false} EndedSendable(lines: seq<string>)
    requires forall i | 0 <= i < |lines| :: Sendable(lines[i])
    ensures '\0' !in Ended(lines)
  {
    if lines != [] { EndedSendable(lines[1..]); }
  }

  /** The head of a printed request is found, whatever its body holds. */
  lemma HeadFound(lines: seq<string>, rest: string)
    requires lines != [] && (forall i | 0 <= i < |lines| :: Sendable(lines[i]))
    requires forall i | 0 < i < |lines| :: lines[i] != ""
    ensures HeadLength(Ended(lines) + CRLF + rest) == Some(|Ended(lines)| + 2)
  {
    hide Search, Occurs, CString, Ended;
    var head := Ended(lines) + CRLF;
    EndedSendable(lines);
    CStringAfter(head, rest);
    BlankLineIsLast(lines, CString(rest));
    EndedFirst(lines);
    assert head + CString(rest) == Ended(lines) + (CRLF + CString(rest));
  }

  // ----- requests -----

  /** The head of a request: its lines and the blank line. */
  function Print(line: string, fields: seq<string>): string {
    Ended([line] + fields) + CRLF
  }

  predicate SendableFields(fields: seq<string>) {
    forall i | 0 <= i < |fields| :: Sendable(fields[i]) && fields[i] != ""
  }

  ghost predicate BadLength(line: string) {
    IsLength(line) && forall n: nat | n <= 10485760 :: !IsNumber(LengthValue(line), n)
  }

  /** Some line is one too many, says how the body is encoded, or gives a length that is no number in the limit. */
  ghost predicate Objectionable(lines: seq<string>) {
    || (exists i | 0 <= i < |lines| :: IsEncoding(lines[i]))
    || (exists i | 0 <= i < |lines| :: BadLength(lines[i]))
    || (exists i, j | 0 <= i < j < |lines| :: IsLength(lines[i]) && IsLength(lines[j]))
  }

  /** The length the lines announce: that of the one line that gives one, or nothing. */
  ghost predicate Announces(lines: seq<string>, n: nat) {
    if exists i | 0 <= i < |lines| :: IsLength(lines[i]) then
      exists i | 0 <= i < |lines| :: IsLength(lines[i]) && IsNumber(LengthValue(lines[i]), n)
    else n == 0
  }

  lemma {:induction false} SaidRefused(lines: seq<string>, i: nat)
    requires i < |lines| && ReadLine(lines[i]).Refused?
    ensures Said(lines).None?
  {
    hide ReadLine;
    if i > 0 { SaidRefused(lines[1..], i - 1); }
  }

  lemma {:induction false} SaidNothing(lines: seq<string>)
    requires forall i | 0 <= i < |lines| :: ReadLine(lines[i]).Plain?
    ensures Said(lines) == Some([])
  {
    hide ReadLine;
    if lines != [] {
      var none: seq<nat> := [];
      SaidNothing(lines[1..]);
      assert none + none == none;
    }
  }

  lemma {:induction false} SaidOne(lines: seq<string>, i: nat)
    requires i < |lines| && ReadLine(lines[i]).Length?
    requires forall j | 0 <= j < |lines| && j != i :: ReadLine(lines[j]).Plain?
    ensures Said(lines) == Some([ReadLine(lines[i]).n])
  {
    hide ReadLine;
    var n: seq<nat> := [ReadLine(lines[i]).n];
    if i == 0 {
      SaidNothing(lines[1..]);
      assert n + [] == n;
    } else {
      assert lines[1..][i - 1] == lines[i];
      SaidOne(lines[1..], i - 1);
      assert [] + n == n;
    }
  }

  lemma {:induction false} SaidSome(lines: seq<string>, i: nat)
    requires i < |lines| && ReadLine(lines[i]).Length?
    ensures Said(lines).None? || |Said(lines).value| >= 1
  {
    hide ReadLine;
    if i > 0 { SaidSome(lines[1..], i - 1); }
  }

  lemma {:induction false} SaidTwice(lines: seq<string>, i: nat, j: nat)
    requires i < j < |lines| && ReadLine(lines[i]).Length? && ReadLine(lines[j]).Length?
    ensures Said(lines).None? || |Said(lines).value| >= 2
  {
    hide ReadLine;
    if i == 0 {
      SaidSome(lines[1..], j - 1);
    } else {
      SaidTwice(lines[1..], i - 1, j - 1);
    }
  }

  /** Every number is the value of at most one announcement. */
  lemma SameNumber(value: string, n: nat, m: nat)
    requires n <= 10485760 && m <= 10485760 && IsNumber(value, n) && IsNumber(value, m)
    ensures n == m
  {
    hide LengthOf, IsNumber;
    LengthOfExact(value, n);
    LengthOfExact(value, m);
  }

  lemma ObjectionRefused(lines: seq<string>)
    requires Objectionable(lines)
    ensures Said(lines).None? || |Said(lines).value| >= 2
  {
    hide ReadLine, Said, IsNumber, IsLength, IsEncoding, LengthOf;
    forall i | 0 <= i < |lines| ensures IsEncoding(lines[i]) ==> Said(lines).None? {
      LineSays(lines[i]);
      if IsEncoding(lines[i]) { SaidRefused(lines, i); }
    }
    forall i | 0 <= i < |lines| && BadLength(lines[i]) ensures Said(lines).None? {
      LineSays(lines[i]);
      var value := LengthValue(lines[i]);
      if LengthOf(value).Some? { LengthOfExact(value, LengthOf(value).value); }
      SaidRefused(lines, i);
    }
    forall i, j | 0 <= i < j < |lines| && IsLength(lines[i]) && IsLength(lines[j])
      ensures Said(lines).None? || |Said(lines).value| >= 2
    {
      LineSays(lines[i]);
      LineSays(lines[j]);
      if ReadLine(lines[i]).Refused? {
        SaidRefused(lines, i);
      } else if ReadLine(lines[j]).Refused? {
        SaidRefused(lines, j);
      } else {
        SaidTwice(lines, i, j);
      }
    }
  }

  lemma Announced(lines: seq<string>) returns (n: nat)
    requires !Objectionable(lines)
    ensures n <= 10485760 && Announces(lines, n)
    ensures Said(lines).Some? && |Said(lines).value| <= 1
    ensures n == if Said(lines).value == [] then 0 else Said(lines).value[0]
  {
    hide ReadLine, Said, IsNumber, IsLength, IsEncoding, LengthOf;
    forall i | 0 <= i < |lines| ensures !IsLength(lines[i]) ==> ReadLine(lines[i]) == Plain { LineSays(lines[i]); }
    if i: nat :| i < |lines| && IsLength(lines[i]) {
      var m: nat :| m <= 10485760 && IsNumber(LengthValue(lines[i]), m);
      LengthOfExact(LengthValue(lines[i]), m);
      LineSays(lines[i]);
      SaidOne(lines, i);
      n := m;
    } else {
      SaidNothing(lines);
      n := 0;
    }
  }

  lemma OneAnnouncement(lines: seq<string>, n: nat, m: nat)
    requires !Objectionable(lines) && Announces(lines, n) && Announces(lines, m) && n <= 10485760 && m <= 10485760
    ensures n == m
  {
    hide IsNumber, IsLength, IsEncoding;
    if i: nat :| i < |lines| && IsLength(lines[i]) && IsNumber(LengthValue(lines[i]), n) {
      var j: nat :| j < |lines| && IsLength(lines[j]) && IsNumber(LengthValue(lines[j]), m);
      assert i == j;
      SameNumber(LengthValue(lines[i]), n, m);
    }
  }

  lemma BlankLineSays(lines: seq<string>)
    ensures Objectionable(lines + [""]) <==> Objectionable(lines)
    ensures forall n :: Announces(lines + [""], n) <==> Announces(lines, n)
  {
    hide IsNumber;
    var all := lines + [""];
    assert !IsLength("") && !IsEncoding("");
    assert forall i | 0 <= i < |lines| :: all[i] == lines[i];
  }

  /** The length of the body that a printed head announces. */
  lemma HeadAnnounces(lines: seq<string>) returns (n: nat)
    requires forall i | 0 <= i < |lines| :: Sendable(lines[i])
    ensures Objectionable(lines) ==> ContentLength(Ended(lines) + CRLF).None?
    ensures !Objectionable(lines) ==>
              n <= 10485760 && Announces(lines, n) && ContentLength(Ended(lines) + CRLF) == Some(n)
  {
    hide Objectionable, Announces, Lengths, Said, Ended;
    var all := lines + [""];
    BlankLineSays(lines);
    EndedMore(lines, "");
    assert Ended(lines) + "" == Ended(lines);
    assert forall i | 0 <= i < |all| :: Sendable(all[i]);
    LengthsOfLines(all);
    n := 0;
    if Objectionable(all) {
      ObjectionRefused(all);
    } else {
      n := Announced(all);
    }
  }

  /** A printed request is read back. It is refused if its head is too long, a part of the request line does not fit,
      or its fields are objectionable; otherwise it has the body of exactly the length announced, as soon as so much
      has arrived, and method, path, query and head as they were printed. */
  lemma RequestRoundTrip(m: string, path: string, query: Option<string>, version: string, fields: seq<string>,
                         rest: string)
    returns (n: nat)
    requires ' ' !in m && ' ' !in path && '?' !in path && ' ' !in query.GetOr("")
    requires Sendable(m) && Sendable(path) && Sendable(query.GetOr("")) && Sendable(version) && SendableFields(fields)
    ensures var line := m + " " + (path + QueryPart(query) + " " + version);
            var head, verdict := Print(line, fields), Judge(Print(line, fields) + rest);
            if || |head| >= 4096 || |m| == 0 || |m| >= 16 || |path| >= 1024 || |query.GetOr("")| >= 512
               || Objectionable([line] + fields)
            then verdict == Bad
            else
              && n <= 10485760 && Announces([line] + fields, n)
              && verdict == if |rest| < n then More else Done(Head(m, path, query.GetOr(""), head, n), rest[..n])
  {
    hide Judge, Objectionable, Announces, Ended, ContentLength, ReadHead, Search;
    var line := m + " " + (path + QueryPart(query) + " " + version);
    var lines, head := [line] + fields, Print(line, fields);
    assert Sendable(line) && forall i | 0 <= i < |lines| :: Sendable(lines[i]) && (i > 0 ==> lines[i] == fields[i - 1]);
    HeadFound(lines, rest);
    n := HeadAnnounces(lines);
    EndedFirst(lines);
    assert lines[1..] == fields;
    assert head == line + CRLF + (Ended(fields) + CRLF);
    RequestLineRoundTrip(m, path, query, version, Ended(fields) + CRLF);
    JudgedByHead(head, rest);
  }

  /** A head that is there is read. */
  lemma JudgedByHead(head: string, rest: string)
    requires HeadLength(head + rest) == Some(|head|) && Search(head, CRLF).Some?
    ensures Judge(head + rest) ==
            if |head| >= 4096 || ReadHead(head).None? then Bad
            else
              var read := ReadHead(head).value;
              if |rest| < read.contentLength then More else Done(read, rest[..read.contentLength])
  {
    hide HeadLength, Search, ReadHead;
    var bytes := head + rest;
    assert bytes[..|head|] == head;
    if |head| < 4096 && ReadHead(head).Some? {
      BodyAfter(head, rest, ReadHead(head).value.contentLength);
    }
  }

  lemma BodyAfter(head: string, rest: string, n: nat)
    ensures n <= |rest| ==> (head + rest)[|head|..|head| + n] == rest[..n]
    ensures |head + rest| - |head| == |rest|
  {
  }

  /** A request line without two spaces is refused. */
  lemma FewSpacesRefused(line: string, fields: seq<string>, rest: string)
    requires Sendable(line) && SendableFields(fields)
    requires forall i, j | 0 <= i < j < |line| :: line[i] != ' ' || line[j] != ' '
    ensures Judge(Print(line, fields) + rest) == Bad
  {
    hide Judge, Ended, ContentLength, HeadLength, Search;
    var lines, head := [line] + fields, Print(line, fields);
    assert forall i | 0 <= i < |lines| :: Sendable(lines[i]) && (i > 0 ==> lines[i] == fields[i - 1]);
    HeadFound(lines, rest);
    EndedFirst(lines);
    assert lines[1..] == fields;
    assert head == line + CRLF + (Ended(fields) + CRLF);
    LineFound(line, Ended(fields) + CRLF);
    JudgedByHead(head, rest);
    assert head[..|line|] == line;
    var i := IndexOf(line, ' ');
    if i < |line| {
      var rest' := line[i + 1..];
      forall k | 0 <= k < |rest'| ensures rest'[k] != ' ' { assert rest'[k] == line[i + 1 + k]; }
    }
  }

  /** An empty line ends the head here. */
  predicate EmptyLineAt(bytes: string, i: nat) {
    i + 4 <= |bytes| && bytes[i] == '\r' && bytes[i + 1] == '\n' && bytes[i + 2] == '\r' && bytes[i + 3] == '\n'
  }

  /** As long as no blank line has come before the first NUL, the verdict is "more" up to 16384 bytes. */
  lemma NoHeadYet(bytes: string)
    requires forall i: nat | EmptyLineAt(bytes, i) :: '\0' in bytes[..i]
    ensures Judge(bytes) == if |bytes| > 16384 then Bad else More
  {
    hide HeadLength, EmptyLineAt;
    if HeadLength(bytes).Some? { HeadEnds(bytes); }
  }

  lemma HeadEnds(bytes: string)
    requires HeadLength(bytes).Some?
    ensures exists i: nat :: EmptyLineAt(bytes, i) && '\0' !in bytes[..i]
  {
    hide Search, CString, Occurs, EmptyLineAt;
    BeforeNul(bytes, Search(CString(bytes), BLANK).value);
  }

  lemma BeforeNul(bytes: string, i: nat)
    requires Occurs(CString(bytes), BLANK, i)
    ensures EmptyLineAt(bytes, i) && '\0' !in bytes[..i]
  {
    CStringPrefix(bytes);
    var text := CString(bytes);
    hide CString;
    assert |BLANK| == 4 && text[i..i + 4] == BLANK;
    assert text[i] == BLANK[0] && text[i + 1] == BLANK[1] && text[i + 2] == BLANK[2] && text[i + 3] == BLANK[3];
    assert forall k | 0 <= k < i :: bytes[..i][k] == text[k] && text[k] in text;
  }
}
