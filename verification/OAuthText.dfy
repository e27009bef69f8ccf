/**
 What the two codecs and the query parser read and write, spelled out: the characters themselves, the numbers
 that stand behind them, and the parts a query is joined from.
 */
module OAuthText {
  import opened Wrappers
  import opened OAuthCodec
  import opened OAuthQuery

  // ----- the alphabets -----

  const UPPER := "ABCDEFGHIJKLMNOPQRSTUVWXYZ"
  const LOWER := "abcdefghijklmnopqrstuvwxyz"
  const DECIMALS := "0123456789"
  const UPPER_HEX := "0123456789ABCDEF"
  const LOWER_HEX := "0123456789abcdef"

  /** Section 5 of RFC 4648. */
  const BASE64_TABLE := UPPER + LOWER + DECIMALS + "-_"

  /** What needs no percent encoding, section 2.3 of RFC 3986. */
  predicate Unreserved(b: Byte) {
    var c := b as char;
    c in UPPER || c in LOWER || c in DECIMALS || c == '-' || c == '.' || c == '_' || c == '~'
  }

  lemma UpperAt(v: int)
    requires 0 <= v < 26
    ensures |UPPER| == 26 && UPPER[v] as int == 'A' as int + v
  {
  }

  lemma LowerAt(v: int)
    requires 0 <= v < 26
    ensures |LOWER| == 26 && LOWER[v] as int == 'a' as int + v
  {
  }

  lemma DecimalAt(v: int)
    requires 0 <= v < 10
    ensures |DECIMALS| == 10 && DECIMALS[v] as int == '0' as int + v
  {
  }

  /** A digit of base64url is the character at its place in the table. */
  lemma DigitInTable(v: int)
    requires 0 <= v < 64
    ensures |BASE64_TABLE| == 64 && Digit(v) == BASE64_TABLE[v] as int
  {
    hide Digit;
    UpperAt(0); LowerAt(0); DecimalAt(0);
    DigitRanges(v);
    FourParts(UPPER, LOWER, DECIMALS, "-_", v);
    if v < 26 {
      UpperAt(v);
    } else if v < 52 {
      LowerAt(v - 26);
    } else if v < 62 {
      DecimalAt(v - 52);
    }
  }

  lemma FourParts(a: string, b: string, c: string, d: string, v: int)
    requires 0 <= v < |a| + |b| + |c| + |d|
    ensures var all := a + b + c + d;
            && |all| == |a| + |b| + |c| + |d|
            && all[v] == if v < |a| then a[v] else if v < |a| + |b| then b[v - |a|]
                         else if v < |a| + |b| + |c| then c[v - |a| - |b|] else d[v - |a| - |b| - |c|]
  {
  }

  lemma DigitRanges(v: int)
    requires 0 <= v < 64
    ensures Digit(v) == if v < 26 then 'A' as int + v else if v < 52 then 'a' as int + (v - 26)
                        else if v < 62 then '0' as int + (v - 52) else if v == 62 then '-' as int else '_' as int
  {
  }

  lemma HexInTable(v: int)
    requires 0 <= v < 16
    ensures |UPPER_HEX| == 16 && |LOWER_HEX| == 16 && HexDigit(v) == UPPER_HEX[v] as int
    ensures HexValue(UPPER_HEX[v] as int) == v && HexValue(LOWER_HEX[v] as int) == v
  {
  }

  lemma Letters(b: Byte)
    ensures b as char in UPPER <==> 'A' as int <= b <= 'Z' as int
    ensures b as char in LOWER <==> 'a' as int <= b <= 'z' as int
    ensures b as char in DECIMALS <==> '0' as int <= b <= '9' as int
  {
    hide *;
    UpperAt(0); LowerAt(0); DecimalAt(0);
    if 'A' as int <= b <= 'Z' as int { UpperAt(b - 'A' as int); assert UPPER[b - 'A' as int] == b as char; }
    if 'a' as int <= b <= 'z' as int { LowerAt(b - 'a' as int); assert LOWER[b - 'a' as int] == b as char; }
    if '0' as int <= b <= '9' as int { DecimalAt(b - '0' as int); assert DECIMALS[b - '0' as int] == b as char; }
    forall v | 0 <= v < 26 ensures 'A' as int <= UPPER[v] as int <= 'Z' as int { UpperAt(v); }
    forall v | 0 <= v < 26 ensures 'a' as int <= LOWER[v] as int <= 'z' as int { LowerAt(v); }
    forall v | 0 <= v < 10 ensures '0' as int <= DECIMALS[v] as int <= '9' as int { DecimalAt(v); }
  }

  // ----- percent encoding, written out -----

  /** An unreserved byte stands for itself, any other is a percent sign and two digits in upper case. */
  function Spelling(b: Byte): seq<Byte> {
    if Unreserved(b) then [b]
    else
      HexInTable(0);
      ['%' as int, UPPER_HEX[b / 16] as int, UPPER_HEX[b % 16] as int]
  }

  lemma SpelledByte(b: Byte)
    ensures EncodeByte(b) == Spelling(b)
  {
    hide HexDigit;
    Letters(b);
    HexInTable(b / 16);
    HexInTable(b % 16);
  }

  /** A value is encoded byte by byte, in order. */
  function Spellings(value: seq<Byte>): seq<Byte> {
    if value == [] then [] else Spellings(value[..|value| - 1]) + Spelling(value[|value| - 1])
  }

  lemma {:induction false} EncodedConcat(a: seq<Byte>, b: seq<Byte>)
    ensures UrlEncoded(a + b) == UrlEncoded(a) + UrlEncoded(b)
  {
    hide EncodeByte;
    if a == [] {
      assert a + b == b;
    } else {
      assert (a + b)[1..] == a[1..] + b;
      EncodedConcat(a[1..], b);
      assert EncodeByte(a[0]) + (UrlEncoded(a[1..]) + UrlEncoded(b))
          == (EncodeByte(a[0]) + UrlEncoded(a[1..])) + UrlEncoded(b);
    }
  }

  lemma EncodedOne(c: Byte)
    ensures UrlEncoded([c]) == EncodeByte(c)
  {
    hide EncodeByte;
    assert [c][1..] == [] && UrlEncoded([]) == [];
    assert EncodeByte(c) + [] == EncodeByte(c);
  }

  lemma {:induction false} EncodedExact(value: seq<Byte>)
    ensures UrlEncoded(value) == Spellings(value)
  {
    hide EncodeByte, Spelling;
    if value != [] {
      var front, last := value[..|value| - 1], value[|value| - 1];
      EncodedExact(front);
      EncodedConcat(front, [last]);
      EncodedOne(last);
      SpelledByte(last);
      assert value == front + [last];
    }
  }

  /** How a byte may be written: as it is, as a plus sign, or in hexadecimal digits of either case. */
  datatype Written = Raw(b: Byte) | Plus | Hex(high: int, low: int, upperHigh: bool, upperLow: bool)

  predicate Writable(w: Written) {
    match w
    case Raw(b) => b != '%' as int && b != '+' as int
    case Plus => true
    case Hex(high, low, _, _) => 0 <= high < 16 && 0 <= low < 16
  }

  function HexChar(v: int, upper: bool): Byte
    requires 0 <= v < 16
  {
    HexInTable(v);
    if upper then UPPER_HEX[v] as int else LOWER_HEX[v] as int
  }

  function Meant(w: Written): Byte
    requires Writable(w)
  {
    match w
    case Raw(b) => b
    case Plus => ' ' as int
    case Hex(high, low, _, _) => 16 * high + low
  }

  function Write(w: Written): seq<Byte>
    requires Writable(w)
  {
    match w
    case Raw(b) => [b]
    case Plus => ['+' as int]
    case Hex(high, low, upperHigh, upperLow) => ['%' as int, HexChar(high, upperHigh), HexChar(low, upperLow)]
  }

  /** Such a list writes the value, and every byte of the meaning may stand in one. */
  predicate IsWriting(ws: seq<Written>, value: seq<Byte>, meaning: seq<Byte>)
    decreases |ws|
  {
    if ws == [] then value == [] && meaning == []
    else
      && Writable(ws[0]) && Write(ws[0]) <= value && meaning != [] && meaning[0] == Meant(ws[0])
      && meaning[0] >= 32 && meaning[0] != 127
      && IsWriting(ws[1..], value[|Write(ws[0])|..], meaning[1..])
  }

  lemma HexCharValue(v: int, upper: bool)
    requires 0 <= v < 16
    ensures HexValue(HexChar(v, upper)) == v
  {
    HexInTable(v);
  }

  lemma FirstWritten(w: Written, value: seq<Byte>)
    requires Writable(w) && Write(w) <= value
    ensures DecodeFirst(value) == if Meant(w) >= 32 && Meant(w) != 127 then Some((Meant(w), |Write(w)|)) else None
  {
    hide HexValue, HexChar;
    if w.Hex? {
      HexCharValue(w.high, w.upperHigh);
      HexCharValue(w.low, w.upperLow);
      assert value[1] == Write(w)[1] && value[2] == Write(w)[2];
    }
    assert value[0] == Write(w)[0];
  }

  lemma {:induction false} WritingIsDecoded(ws: seq<Written>, value: seq<Byte>, meaning: seq<Byte>)
    requires IsWriting(ws, value, meaning)
    ensures Decoded(value) == Some(meaning)
  {
    hide Write, Meant, Writable, DecodeFirst;
    if ws != [] {
      FirstWritten(ws[0], value);
      WritingIsDecoded(ws[1..], value[|Write(ws[0])|..], meaning[1..]);
      assert meaning == [meaning[0]] + meaning[1..];
    }
  }

  /** A character with a value is a hexadecimal digit of one of the two cases. */
  lemma HexCharOf(b: Byte)
    requires HexValue(b) >= 0
    ensures HexChar(HexValue(b), true) == b || HexChar(HexValue(b), false) == b
  {
    HexInTable(HexValue(b));
    assert UPPER_HEX[HexValue(b)] as int == b || LOWER_HEX[HexValue(b)] as int == b;
  }

  lemma WrittenFirst(value: seq<Byte>) returns (w: Written)
    requires value != [] && DecodeFirst(value).Some?
    ensures Writable(w) && Write(w) <= value && |Write(w)| == DecodeFirst(value).value.1
    ensures Meant(w) == DecodeFirst(value).value.0 && Meant(w) >= 32 && Meant(w) != 127
  {
    hide HexValue, HexChar;
    if value[0] == '%' as int {
      var high, low := HexValue(value[1]), HexValue(value[2]);
      HexCharOf(value[1]);
      HexCharOf(value[2]);
      w := Hex(high, low, HexChar(high, true) == value[1], HexChar(low, true) == value[2]);
    } else {
      w := if value[0] == '+' as int then Plus else Raw(value[0]);
    }
  }

  lemma {:induction false} DecodedIsWritten(value: seq<Byte>) returns (ws: seq<Written>)
    requires Decoded(value).Some?
    ensures IsWriting(ws, value, Decoded(value).value)
  {
    hide Write, Meant, Writable, DecodeFirst;
    if value == [] {
      ws := [];
    } else {
      var w := WrittenFirst(value);
      var rest := DecodedIsWritten(value[|Write(w)|..]);
      ws := [w] + rest;
      assert ws[1..] == rest;
      var meaning := Decoded(value).value;
      assert meaning == [Meant(w)] + Decoded(value[|Write(w)|..]).value;
      assert meaning[1..] == Decoded(value[|Write(w)|..]).value;
    }
  }

  /** Decoding takes exactly the non-empty values written in these ways, and gives what they mean. */
  lemma DecodedExact(value: seq<Byte>, meaning: seq<Byte>)
    ensures UrlDecoded(value) == Some(meaning) <==> value != [] && exists ws :: IsWriting(ws, value, meaning)
  {
    hide Decoded, IsWriting;
    if value != [] && Decoded(value) == Some(meaning) {
      var ws := DecodedIsWritten(value);
    }
    forall ws | IsWriting(ws, value, meaning) ensures Decoded(value) == Some(meaning) {
      WritingIsDecoded(ws, value, meaning);
    }
  }

  // ----- base64url, in numbers -----

  /** The places of a text's characters in the table. */
  predicate Places(text: seq<Byte>, ds: seq<int>) {
    && |text| == |ds| && |BASE64_TABLE| == 64
    && forall i | 0 <= i < |ds| :: 0 <= ds[i] < 64 && text[i] == BASE64_TABLE[ds[i]] as int
  }

  lemma DigitOfValue(b: Byte)
    requires DigitValue(b) >= 0
    ensures Digit(DigitValue(b)) == b
  {
  }

  /** A character is taken if and only if it is in the table, and its value is its place there. */
  lemma DigitTaken(b: Byte)
    ensures |BASE64_TABLE| == 64
    ensures DigitValue(b) >= 0 <==> b as char in BASE64_TABLE
    ensures DigitValue(b) >= 0 ==> BASE64_TABLE[DigitValue(b)] as int == b
    ensures forall v | 0 <= v < 64 :: BASE64_TABLE[v] as int == b ==> DigitValue(b) == v
  {
    hide *;
    DigitInTable(0);
    if DigitValue(b) >= 0 {
      DigitOfValue(b);
      DigitInTable(DigitValue(b));
      assert BASE64_TABLE[DigitValue(b)] == b as char;
    }
    forall v | 0 <= v < 64 && BASE64_TABLE[v] as int == b ensures DigitValue(b) == v {
      DigitInTable(v);
      DigitInverse(v);
    }
  }

  /** The number that digits in a base stand for, the highest first. */
  function Number(ds: seq<int>, base: int): int {
    if ds == [] then 0 else Number(ds[..|ds| - 1], base) * base + ds[|ds| - 1]
  }

  lemma NumberMore(ds: seq<int>, d: int, base: int)
    ensures Number(ds + [d], base) == Number(ds, base) * base + d
  {
    assert (ds + [d])[..|ds|] == ds;
  }

  lemma NumberOne(a: int, base: int)
    ensures Number([a], base) == a
  {
    assert [a][..0] == [] && Number([], base) == 0;
  }

  lemma NumberTwo(a: int, b: int, base: int)
    ensures Number([a, b], base) == a * base + b
  {
    hide Number;
    NumberOne(a, base);
    NumberMore([a], b, base);
    assert [a] + [b] == [a, b];
  }

  lemma NumberThree(a: int, b: int, c: int, base: int)
    ensures Number([a, b, c], base) == (a * base + b) * base + c
  {
    hide Number;
    NumberTwo(a, b, base);
    NumberMore([a, b], c, base);
    assert [a, b] + [c] == [a, b, c];
  }

  lemma NumberFour(a: int, b: int, c: int, d: int, base: int)
    ensures Number([a, b, c, d], base) == ((a * base + b) * base + c) * base + d
  {
    hide Number;
    NumberThree(a, b, c, base);
    NumberMore([a, b, c], d, base);
    assert [a, b, c] + [d] == [a, b, c, d];
  }

  /** What the digits hold beyond their bytes: nothing for three bytes, two bits for two, four for one. */
  function Spare(bytes: nat): int {
    if bytes == 1 then 16 else if bytes == 2 then 4 else 1
  }

  lemma BytesAsNumber(data: seq<int>, x: int, y: int, z: int)
    requires 1 <= |data| <= 3 && data == [x, y, z][..|data|]
    requires 0 <= x < 256 && 0 <= y < 256 && 0 <= z < 256
    requires (|data| < 2 ==> y == 0) && (|data| < 3 ==> z == 0)
    ensures |data| == 3 ==> Number(data, 256) == x * 65536 + y * 256 + z
    ensures |data| == 2 ==> Number(data, 256) * 256 == x * 65536 + y * 256 + z
    ensures |data| == 1 ==> Number(data, 256) * 65536 == x * 65536 + y * 256 + z
  {
    hide Number;
    if |data| == 1 {
      assert data == [x];
      NumberOne(x, 256);
    } else if |data| == 2 {
      assert data == [x, y];
      NumberTwo(x, y, 256);
    } else {
      assert data == [x, y, z];
      NumberThree(x, y, z, 256);
    }
  }

  lemma DigitsAsNumber(ds: seq<int>, a: int, b: int, c: int, d: int)
    requires 2 <= |ds| <= 4 && ds == [a, b, c, d][..|ds|]
    requires (|ds| < 3 ==> c == 0) && (|ds| < 4 ==> d == 0)
    ensures |ds| == 4 ==> Number(ds, 64) == a * 262144 + b * 4096 + c * 64 + d
    ensures |ds| == 3 ==> Number(ds, 64) * 64 == a * 262144 + b * 4096 + c * 64 + d
    ensures |ds| == 2 ==> Number(ds, 64) * 4096 == a * 262144 + b * 4096 + c * 64 + d
  {
    hide Number;
    if |ds| == 2 {
      assert ds == [a, b];
      NumberTwo(a, b, 64);
    } else if |ds| == 3 {
      assert ds == [a, b, c];
      NumberThree(a, b, c, 64);
    } else {
      assert ds == [a, b, c, d];
      NumberFour(a, b, c, d, 64);
    }
  }

  lemma InPlace(v: int)
    requires 0 <= v < 64
    ensures |BASE64_TABLE| == 64 && Digit(v) == BASE64_TABLE[v] as int
  {
    DigitInTable(v);
  }

  /** Bytes become the digits of the same number, with zero bits at the right where the last digit has some left. */
  lemma GroupExact(data: seq<Byte>) returns (ds: seq<int>)
    requires 1 <= |data| <= 3
    ensures Places(Group(data), ds) && |ds| == |data| + 1
    ensures Number(ds, 64) == Number(data, 256) * Spare(|data|)
  {
    hide Digit, BASE64_TABLE, Number, Value;
    var x, y, z := At(data, 0), At(data, 1), At(data, 2);
    var value := Value(x, y, z);
    DigitsOf(value);
    ShortGroups(x, y);
    ValueIs(x, y, z);
    var a, b, c, d := value / 262144, value / 4096 % 64, value / 64 % 64, value % 64;
    InPlace(a);
    InPlace(b);
    InPlace(c);
    InPlace(d);
    ds := [a, b, c, d][..|data| + 1];
    assert data == [x, y, z][..|data|];
    BytesAsNumber(data, x, y, z);
    DigitsAsNumber(ds, a, b, c, d);
  }

  lemma ValueIs(x: Byte, y: Byte, z: Byte)
    ensures Value(x, y, z) as int == (x as int) * 65536 + (y as int) * 256 + (z as int)
  {
  }

  lemma BytesOfNumber(v: int)
    requires 0 <= v < 0x100_0000
    ensures 0 <= v / 65536 < 256
    ensures v / 65536 * 65536 + v / 256 % 256 * 256 + v % 256 == v
  {
    assert v / 256 / 256 == v / 65536;
  }

  /** Digits are read as a number; what does not fill a byte at the right is dropped. */
  lemma UngroupExact(text: seq<Byte>, ds: seq<int>)
    requires 2 <= |text| <= 4 && Places(text, ds)
    ensures Ungroup(text).Some? && |Ungroup(text).value| == |text| - 1
    ensures Number(Ungroup(text).value, 256) == Number(ds, 64) / Spare(|text| - 1)
  {
    hide DigitValue, BASE64_TABLE, Number;
    forall i | 0 <= i < |text| ensures DigitValue(text[i]) == ds[i] { DigitTaken(text[i]); }
    var c, d := if |text| > 2 then ds[2] else 0, if |text| > 3 then ds[3] else 0;
    var v := ds[0] * 262144 + ds[1] * 4096 + c * 64 + d;
    DigitsAsNumber(ds, ds[0], ds[1], c, d);
    BytesOfNumber(v);
    var r := Ungroup(text).value;
    assert r == [v / 65536, v / 256 % 256, v % 256][..|text| - 1];
    if |text| == 2 {
      NumberOne(v / 65536, 256);
      assert r == [v / 65536];
    } else if |text| == 3 {
      NumberTwo(v / 65536, v / 256 % 256, 256);
      assert r == [v / 65536, v / 256 % 256];
    } else {
      NumberThree(v / 65536, v / 256 % 256, v % 256, 256);
      assert r == [v / 65536, v / 256 % 256, v % 256];
    }
    Dropped(Number(ds, 64), v);
  }

  lemma Dropped(n: int, v: int)
    requires 0 <= v < 0x100_0000
    ensures v / 65536 * 256 + v / 256 % 256 == v / 256
    ensures v == n * 64 ==> v / 256 == n / 4
    ensures v == n * 4096 ==> v / 65536 == n / 16
  {
    assert v / 256 / 256 == v / 65536;
  }

  /** Data is encoded in groups of three bytes. */
  lemma {:induction false} EncodedInGroups(a: seq<Byte>, b: seq<Byte>)
    requires |a| % 3 == 0
    ensures Base64(a + b) == Base64(a) + Base64(b)
  {
    hide Group, EncodedSize;
    if a == [] {
      assert a + b == b;
    } else {
      assert (a + b)[..3] == a[..3] && (a + b)[3..] == a[3..] + b;
      EncodedInGroups(a[3..], b);
      assert Group(a[..3]) + (Base64(a[3..]) + Base64(b)) == (Group(a[..3]) + Base64(a[3..])) + Base64(b);
    }
  }

  lemma EncodedGroup(data: seq<Byte>)
    requires 1 <= |data| <= 3
    ensures Base64(data) == Group(data)
  {
    hide Group;
    assert data[..|data|] == data && data[|data|..] == [] && Base64([]) == [];
  }

  /** Text is decoded in groups of four digits; a group that is refused refuses it all. */
  lemma {:induction false} DecodedInGroups(a: seq<Byte>, b: seq<Byte>)
    requires |a| % 4 == 0
    ensures Unbase64(a + b) ==
            if Unbase64(a).None? || Unbase64(b).None? then None else Some(Unbase64(a).value + Unbase64(b).value)
  {
    hide Ungroup, DecodedSize;
    if a == [] {
      assert a + b == b;
      if Unbase64(b).Some? { assert [] + Unbase64(b).value == Unbase64(b).value; }
    } else {
      assert (a + b)[..4] == a[..4] && (a + b)[4..] == a[4..] + b;
      DecodedInGroups(a[4..], b);
      if Ungroup(a[..4]).Some? && Unbase64(a[4..]).Some? && Unbase64(b).Some? {
        PrependTwice(Ungroup(a[..4]).value, Unbase64(a[4..]).value, Unbase64(b));
      }
    }
  }

  lemma DecodedGroup(text: seq<Byte>)
    requires 2 <= |text| <= 4
    ensures Unbase64(text) == Ungroup(text)
  {
    hide Ungroup;
    assert text[..|text|] == text && text[|text|..] == [] && Unbase64([]) == Some([]);
    if Ungroup(text).Some? { assert Ungroup(text).value + [] == Ungroup(text).value; }
  }

  predicate InTable(text: seq<Byte>) {
    forall i | 0 <= i < |text| :: text[i] as char in BASE64_TABLE
  }

  lemma GroupAccepted(text: seq<Byte>)
    requires 1 <= |text| <= 4
    ensures Ungroup(text).Some? <==> |text| > 1 && InTable(text)
  {
    hide DigitValue, BASE64_TABLE;
    forall i | 0 <= i < |text| ensures DigitValue(text[i]) >= 0 <==> text[i] as char in BASE64_TABLE {
      DigitTaken(text[i]);
    }
  }

  lemma {:induction false} TextAccepted(text: seq<Byte>)
    ensures Unbase64(text).Some? <==> |text| % 4 != 1 && InTable(text)
  {
    hide Ungroup, DecodedSize, BASE64_TABLE;
    if text != [] {
      var n := Min(4, |text|);
      GroupAccepted(text[..n]);
      TextAccepted(text[n..]);
      assert forall i | 0 <= i < n :: text[..n][i] == text[i];
      assert forall i | n <= i < |text| :: text[i] == text[n..][i - n];
      assert InTable(text) <==> InTable(text[..n]) && InTable(text[n..]);
    }
  }

  /** A text is taken if and only if it is not empty, not one digit over, at most 256 KiB long and all of it is in
      the table. */
  lemma AcceptedExactly(text: seq<Byte>)
    ensures Base64UrlDecoded(text).Some? <==>
            text != [] && |text| % 4 != 1 && |text| <= 262144 && InTable(text)
  {
    hide Unbase64, InTable;
    TextAccepted(text);
  }

  // ----- a query, joined from its parts -----

  function Ascii(s: string): seq<int> {
    seq(|s|, i requires 0 <= i < |s| => s[i] as int)
  }

  /** The three names the callback looks at. */
  lemma Names()
    ensures CODE == Ascii("code") && STATE == Ascii("state") && ERROR == Ascii("error")
    ensures Ascii("code") != Ascii("state") && Ascii("state") != Ascii("error") && Ascii("code") != Ascii("error")
  {
    assert |Ascii("code")| == 4 && |Ascii("state")| == 5 && |Ascii("error")| == 5;
    assert Ascii("state")[0] == 's' as int && Ascii("error")[0] == 'e' as int;
  }

  /** What a list of fields holds under a name. */
  predicate HeldUnder(fields: seq<Field>, name: seq<int>, value: Option<seq<int>>) {
    if value.None? then forall i | 0 <= i < |fields| :: fields[i].name != name
    else exists i :: 0 <= i < |fields| && fields[i].name == name && fields[i].value == value.value
  }

  lemma {:induction false} LookupHolds(fields: seq<Field>, name: Text)
    ensures HeldUnder(fields, name, Lookup(fields, name))
  {
    if fields != [] && fields[|fields| - 1].name != name {
      var front := fields[..|fields| - 1];
      LookupHolds(front, name);
      if Lookup(front, name).Some? {
        var i :| 0 <= i < |front| && front[i].name == name && front[i].value == Lookup(front, name).value;
        assert fields[i] == front[i];
      } else {
        assert forall i | 0 <= i < |front| :: fields[i] == front[i];
      }
    }
  }

  /** The callback's three values are those of the fields called code, state and error. */
  lemma CallbackHolds(fields: seq<Field>)
    ensures HeldUnder(fields, Ascii("code"), CallbackOf(fields).code)
    ensures HeldUnder(fields, Ascii("state"), CallbackOf(fields).state)
    ensures HeldUnder(fields, Ascii("error"), CallbackOf(fields).denial)
  {
    hide Lookup, HeldUnder, Ascii;
    Names();
    LookupHolds(fields, CODE);
    LookupHolds(fields, STATE);
    LookupHolds(fields, ERROR);
  }

  /** A part is a name and a value around its first equals sign, each written as a value is. */
  predicate IsPart(part: seq<Byte>, f: Field, name: seq<Byte>, value: seq<Byte>) {
    && part == name + ['=' as int] + value && '=' as int !in name
    && UrlDecoded(name) == Some(f.name) && UrlDecoded(value) == Some(f.value)
  }

  lemma PartExact(part: seq<Byte>, f: Field)
    ensures ReadField(part) == Some(f) <==> exists name, value :: IsPart(part, f, name, value)
  {
    hide UrlDecoded;
    if ReadField(part) == Some(f) {
      var e := IndexOf(part, EQUALS);
      assert UrlDecoded([]).None? by { EmptyRefused(); }
      assert part == part[..e] + [EQUALS] + part[e + 1..];
      assert IsPart(part, f, part[..e], part[e + 1..]);
    }
    forall name, value | IsPart(part, f, name, value) ensures ReadField(part) == Some(f) {
      assert UrlDecoded([]).None? by { EmptyRefused(); }
      IndexOfAt(name, EQUALS, value);
      assert part[..|name|] == name && part[|name| + 1..] == value;
    }
  }

  lemma EmptyRefused()
    ensures UrlDecoded([]).None?
  {
  }

  /** The parts with an ampersand between any two. */
  function Joined(parts: seq<seq<Byte>>): seq<Byte>
    requires parts != []
  {
    if |parts| == 1 then parts[0] else parts[0] + ['&' as int] + Joined(parts[1..])
  }

  /** Parts of a query hold no ampersand; an empty query has none. */
  predicate ArePartsOf(parts: seq<seq<Byte>>, query: seq<Byte>) {
    && (forall i | 0 <= i < |parts| :: '&' as int !in parts[i])
    && (if query == [] then parts == [] else parts != [] && query == Joined(parts))
  }

  lemma {:induction false} HasParts(query: seq<Byte>) returns (parts: seq<seq<Byte>>)
    ensures ArePartsOf(parts, query)
  {
    if query == [] {
      parts := [];
    } else {
      var a := IndexOf(query, AMP);
      if a == |query| {
        parts := [query];
        assert query[..a] == query;
      } else if a + 1 == |query| {
        parts := [query[..a], []];
        assert parts[1..] == [[]] && query == query[..a] + [AMP] + [];
      } else {
        var rest := HasParts(query[a + 1..]);
        parts := [query[..a]] + rest;
        assert parts[1..] == rest && query == query[..a] + [AMP] + query[a + 1..];
      }
    }
  }

  /** One field for each part, in order. */
  predicate PartsRead(parts: seq<seq<Byte>>, fields: seq<Field>) {
    |fields| == |parts| && forall i | 0 <= i < |parts| :: ReadField(parts[i]) == Some(fields[i])
  }

  lemma NoField()
    ensures ReadField([]).None?
  {
  }

  lemma JoinedNotEmpty(parts: seq<seq<Byte>>)
    requires parts != [] && Joined(parts) == []
    ensures parts == [[]]
  {
  }

  lemma CutFirst(first: seq<Byte>, rest: seq<Byte>)
    requires '&' as int !in first
    ensures IndexOf(first + ['&' as int] + rest, AMP) == |first| && IndexOf(first, AMP) == |first|
    ensures (first + ['&' as int] + rest)[..|first|] == first && first[..|first|] == first
    ensures (first + ['&' as int] + rest)[|first| + 1..] == rest
    ensures |first + ['&' as int] + rest| == |first| + 1 + |rest|
  {
    IndexOfAt(first, AMP, rest);
  }

  lemma FirstPart(parts: seq<seq<Byte>>, query: seq<Byte>)
    requires ArePartsOf(parts, query) && query != []
    ensures parts != [] && '&' as int !in parts[0] && query == Joined(parts)
  {
  }

  lemma RestOfParts(parts: seq<seq<Byte>>, query: seq<Byte>)
    requires ArePartsOf(parts, query) && |parts| > 1 && Joined(parts[1..]) != []
    ensures ArePartsOf(parts[1..], Joined(parts[1..]))
  {
    forall i | 0 <= i < |parts[1..]| ensures '&' as int !in parts[1..][i] { assert parts[1..][i] == parts[i + 1]; }
  }

  lemma {:induction false} FieldsOfParts(parts: seq<seq<Byte>>, query: seq<Byte>, room: nat)
    requires parts != [] && ArePartsOf(parts, query) && query != []
    ensures ReadFields(query, room).Some? ==> |parts| <= room && PartsRead(parts, ReadFields(query, room).value)
    ensures |parts| <= room && (forall i | 0 <= i < |parts| :: ReadField(parts[i]).Some?) ==>
              ReadFields(query, room).Some?
  {
    hide ReadField, ReadFields, IndexOf, ArePartsOf;
    if room == 0 {
      NoRoomLeft(query);
    } else {
      FirstPart(parts, query);
      ReadFieldsUnfold(query, room);
      var rest := parts[1..];
      if |parts| == 1 {
        CutFirst(query, []);
      } else {
        var left := Joined(rest);
        CutFirst(parts[0], left);
        if left == [] {
          JoinedNotEmpty(rest);
          NoField();
          assert parts[1] == rest[0];
        } else {
          RestOfParts(parts, query);
          FieldsOfParts(rest, left, room - 1);
          assert forall i | 0 < i < |parts| :: parts[i] == rest[i - 1];
          assert forall i | 0 <= i < |rest| :: rest[i] == parts[i + 1];
        }
      }
    }
  }

  lemma NoRoomLeft(query: seq<Byte>)
    requires query != []
    ensures ReadFields(query, 0).None?
  {
  }

  /** What sixteen fields or fewer with distinct names say: a state, and either a code or an error. */
  predicate Says(fields: seq<Field>, c: Callback) {
    && (forall i, j | 0 <= i < j < |fields| :: fields[i].name != fields[j].name)
    && HeldUnder(fields, Ascii("code"), c.code)
    && HeldUnder(fields, Ascii("state"), c.state)
    && HeldUnder(fields, Ascii("error"), c.denial)
    && c.state.Some? && (c.code.Some? <==> c.denial.None?)
  }

  lemma HeldOnce(fields: seq<Field>, name: seq<int>, a: Option<seq<int>>, b: Option<seq<int>>)
    requires DistinctNames(fields) && HeldUnder(fields, name, a) && HeldUnder(fields, name, b)
    ensures a == b
  {
    if a.Some? && b.Some? {
      var i :| 0 <= i < |fields| && fields[i].name == name && fields[i].value == a.value;
      var j :| 0 <= j < |fields| && fields[j].name == name && fields[j].value == b.value;
      assert i == j;
    }
  }

  lemma VerdictSays(fields: seq<Field>, c: Callback)
    ensures Verdict(Some(fields)) == Some(c) <==> Says(fields, c)
  {
    hide HeldUnder, Ascii, CallbackOf;
    var held := CallbackOf(fields);
    CallbackHolds(fields);
    if Says(fields, c) {
      HeldOnce(fields, Ascii("code"), c.code, held.code);
      HeldOnce(fields, Ascii("state"), c.state, held.state);
      HeldOnce(fields, Ascii("error"), c.denial, held.denial);
    }
  }

  lemma ReadOnce(parts: seq<seq<Byte>>, a: seq<Field>, b: seq<Field>)
    requires PartsRead(parts, a) && PartsRead(parts, b)
    ensures a == b
  {
    hide ReadField;
    forall i | 0 <= i < |a| ensures a[i] == b[i] {
      assert ReadField(parts[i]) == Some(a[i]) && ReadField(parts[i]) == Some(b[i]);
    }
  }

  /** A query is taken if and only if it has at most sixteen parts and each of them is a field, and what the fields
      say is what the callback holds. */
  lemma QueryExact(query: seq<Byte>, parts: seq<seq<Byte>>, c: Callback)
    requires ArePartsOf(parts, query)
    ensures ParseQuery(query) == Some(c) <==>
            |parts| <= 16 && exists fields :: PartsRead(parts, fields) && Says(fields, c)
  {
    hide ArePartsOf, ReadFields, ReadField, Says;
    var all := ReadFields(query, 16);
    if query == [] {
      EmptyQuery(parts);
    } else {
      FirstPart(parts, query);
      FieldsOfParts(parts, query, 16);
    }
    if all.Some? {
      assert |parts| <= 16 && PartsRead(parts, all.value);
      VerdictSays(all.value, c);
    }
    forall fields | |parts| <= 16 && PartsRead(parts, fields) && Says(fields, c) ensures all == Some(fields) {
      assert all.Some?;
      ReadOnce(parts, fields, all.value);
    }
  }

  lemma EmptyQuery(parts: seq<seq<Byte>>)
    requires ArePartsOf(parts, [])
    ensures parts == [] && ReadFields([], 16) == Some([])
  {
  }
}
