/**
 The two text codecs of the OAuth client: percent encoding (section 2.1 of RFC 3986) and base64url
 without padding (section 5 of RFC 4648). Encoders and decoders write a buffer allocated beforehand.
 */
module OAuthCodec {
  import opened Wrappers

  type Byte = x: int | 0 <= x < 256

  const OAUTH_VALUE_MAX := 256 * 1024

  // ----- percent encoding -----

  predicate IsAlnum(b: Byte) {
    '0' as int <= b <= '9' as int || 'A' as int <= b <= 'Z' as int || 'a' as int <= b <= 'z' as int
  }

  predicate IsUrlChar(b: Byte) {
    IsAlnum(b) || b == '-' as int || b == '.' as int || b == '_' as int || b == '~' as int
  }

  function HexDigit(v: int): Byte
    requires 0 <= v < 16
  {
    if v < 10 then '0' as int + v else 'A' as int + v - 10
  }

  function HexValue(b: Byte): (v: int)
    ensures -1 <= v < 16
  {
    if '0' as int <= b <= '9' as int then b - '0' as int
    else if 'a' as int <= b <= 'f' as int then b - 'a' as int + 10
    else if 'A' as int <= b <= 'F' as int then b - 'A' as int + 10
    else -1
  }

  function EncodeByte(b: Byte): seq<Byte> {
    if IsUrlChar(b) then [b] else ['%' as int, HexDigit(b / 16), HexDigit(b % 16)]
  }

  function UrlEncoded(value: seq<Byte>): (r: seq<Byte>)
    ensures |value| <= |r| <= 3 * |value|
  {
    if value == [] then [] else EncodeByte(value[0]) + UrlEncoded(value[1..])
  }

  /** Bytes that a decoded value may hold. */
  predicate Printable(b: Byte) {
    b >= 0x20 && b != 0x7f
  }

  /** The first byte of an encoded value and how much of it was read; None if it is malformed or not allowed. */
  function DecodeFirst(value: seq<Byte>): (r: Option<(Byte, nat)>)
    requires value != []
    ensures r.Some? ==> 1 <= r.value.1 <= |value|
  {
    if value[0] == '%' as int then
      if |value| < 3 || HexValue(value[1]) < 0 || HexValue(value[2]) < 0 then None
      else
        var b := HexValue(value[1]) * 16 + HexValue(value[2]);
        if Printable(b) then Some((b, 3)) else None
    else
      var b := if value[0] == '+' as int then 0x20 else value[0];
      if Printable(b) then Some((b, 1)) else None
  }

  function Prepend<T>(front: seq<T>, rest: Option<seq<T>>): Option<seq<T>> {
    if rest.None? then None else Some(front + rest.value)
  }

  lemma PrependNothing<T>(rest: Option<seq<T>>)
    ensures Prepend([], rest) == rest
  {
    if rest.Some? { assert [] + rest.value == rest.value; }
  }

  lemma PrependTwice<T>(front: seq<T>, more: seq<T>, rest: Option<seq<T>>)
    ensures Prepend(front, Prepend(more, rest)) == Prepend(front + more, rest)
  {
    if rest.Some? { assert front + (more + rest.value) == front + more + rest.value; }
  }

  function Decoded(value: seq<Byte>): (r: Option<seq<Byte>>)
    ensures r.Some? ==> |r.value| <= |value|
  {
    if value == [] then Some([])
    else
      var first := DecodeFirst(value);
      if first.None? then None else Prepend([first.value.0], Decoded(value[first.value.1..]))
  }

  /** url_decode_exact refuses an empty value. */
  function UrlDecoded(value: seq<Byte>): Option<seq<Byte>> {
    if value == [] then None else Decoded(value)
  }

  predicate AllPrintable(value: seq<Byte>) {
    forall b | b in value :: Printable(b)
  }

  lemma EncodedFirst(b: Byte, rest: seq<Byte>)
    ensures DecodeFirst(EncodeByte(b) + rest) == if Printable(b) then Some((b, |EncodeByte(b)|)) else None
  {
    assert HexValue(HexDigit(b / 16)) == b / 16 && HexValue(HexDigit(b % 16)) == b % 16;
  }

  lemma {:induction false} DecodedOfEncoded(value: seq<Byte>)
    ensures Decoded(UrlEncoded(value)) == if AllPrintable(value) then Some(value) else None
  {
    hide EncodeByte, DecodeFirst;
    if value != [] {
      EncodedFirst(value[0], UrlEncoded(value[1..]));
      DecodedOfEncoded(value[1..]);
      assert |EncodeByte(value[0])| >= 1 by { EncodedLength(value[0]); }
      assert UrlEncoded(value)[|EncodeByte(value[0])|..] == UrlEncoded(value[1..]);
      assert value == [value[0]] + value[1..];
    }
  }

  lemma EncodedLength(b: Byte)
    ensures 1 <= |EncodeByte(b)| <= 3
  {
  }

  /** Decoding undoes encoding exactly on the non-empty values without control bytes, and refuses all others. */
  lemma UrlRoundTrip(value: seq<Byte>)
    ensures UrlDecoded(UrlEncoded(value)) == if value != [] && AllPrintable(value) then Some(value) else None
  {
    DecodedOfEncoded(value);
  }

  /** url_encode: three bytes for each are enough. */
  method UrlEncode(value: seq<Byte>) returns (encoded: seq<Byte>)
    ensures encoded == UrlEncoded(value)
  {
    hide EncodeByte;
    var buffer := new Byte[|value| * 3 + 1];
    var output, index := 0, 0;
    while index < |value|
      invariant 0 <= index <= |value| && output <= 3 * index
      invariant buffer[..output] + UrlEncoded(value[index..]) == UrlEncoded(value)
    {
      ghost var done := buffer[..output];
      assert value[index..][1..] == value[index + 1..];
      output := WriteByte(buffer, output, value[index]);
      assert buffer[..output] == done + EncodeByte(value[index]);
      index := index + 1;
    }
    encoded := buffer[..output];
  }

  method WriteByte(buffer: array<Byte>, output: nat, b: Byte) returns (end: nat)
    requires output + 3 <= buffer.Length
    modifies buffer
    ensures end <= output + 3 && buffer[..end] == old(buffer[..output]) + EncodeByte(b)
  {
    if IsUrlChar(b) {
      buffer[output] := b;
      return output + 1;
    }
    buffer[output], buffer[output + 1], buffer[output + 2] := '%' as int, HexDigit(b / 16), HexDigit(b % 16);
    return output + 3;
  }

  /** url_decode_exact: the decoded value is no longer than the encoded one. */
  method UrlDecodeExact(value: seq<Byte>) returns (decoded: Option<seq<Byte>>)
    ensures decoded == UrlDecoded(value)
  {
    hide DecodeFirst;
    if |value| == 0 { return None; }
    var buffer := new Byte[|value| + 1];
    var output, index := 0, 0;
    PrependNothing(Decoded(value));
    assert buffer[..0] == [] && value[0..] == value;
    while index < |value|
      invariant 0 <= output <= index <= |value|
      invariant Prepend(buffer[..output], Decoded(value[index..])) == Decoded(value)
    {
      var first := ReadByte(value[index..]);
      if first.None? { return None; }
      ghost var done := buffer[..output];
      assert value[index..][first.value.1..] == value[index + first.value.1..];
      buffer[output] := first.value.0;
      assert buffer[..output + 1] == done + [first.value.0];
      PrependTwice(done, [first.value.0], Decoded(value[index + first.value.1..]));
      output, index := output + 1, index + first.value.1;
    }
    assert value[index..] == [];
    decoded := Some(buffer[..output]);
    assert buffer[..output] + [] == buffer[..output];
  }

  method ReadByte(value: seq<Byte>) returns (r: Option<(Byte, nat)>)
    requires value != []
    ensures r == DecodeFirst(value)
  {
    var b, read := value[0], 1;
    if b == '%' as int {
      if 2 >= |value| { return None; }
      var high, low := HexValue(value[1]), HexValue(value[2]);
      if high < 0 || low < 0 { return None; }
      b, read := high * 16 + low, 3;
    } else if b == '+' as int {
      b := ' ' as int;
    }
    if b == 0 || b < 0x20 || b == 0x7f { return None; }
    return Some((b, read));
  }

  // ----- base64url -----

  function Digit(v: int): Byte
    requires 0 <= v < 64
  {
    if v < 26 then 'A' as int + v
    else if v < 52 then 'a' as int + v - 26
    else if v < 62 then '0' as int + v - 52
    else if v == 62 then '-' as int
    else '_' as int
  }

  function DigitValue(b: Byte): (v: int)
    ensures -1 <= v < 64
  {
    if 'A' as int <= b <= 'Z' as int then b - 'A' as int
    else if 'a' as int <= b <= 'z' as int then b - 'a' as int + 26
    else if '0' as int <= b <= '9' as int then b - '0' as int + 52
    else if b == '-' as int then 62
    else if b == '_' as int then 63
    else -1
  }

  lemma DigitInverse(v: int)
    requires 0 <= v < 64
    ensures DigitValue(Digit(v)) == v
  {
  }

  function At(data: seq<Byte>, i: nat): Byte {
    if i < |data| then data[i] else 0
  }

  /** Up to three bytes become one digit more than there are. */
  function Group(data: seq<Byte>): (r: seq<Byte>)
    requires 1 <= |data| <= 3
    ensures |r| == |data| + 1
  {
    var value := Value(At(data, 0), At(data, 1), At(data, 2));
    [Digit(value / 262144), Digit(value / 4096 % 64), Digit(value / 64 % 64), Digit(value % 64)][..|data| + 1]
  }

  /** Two to four digits become one byte less than there are. */
  function Ungroup(text: seq<Byte>): (r: Option<seq<Byte>>)
    requires 1 <= |text| <= 4
    ensures r.Some? ==> |r.value| == |text| - 1
  {
    if |text| < 2 || (exists i :: 0 <= i < |text| && DigitValue(text[i]) < 0) then None
    else
      var a, b := DigitValue(text[0]), DigitValue(text[1]);
      var c, d := if |text| > 2 then DigitValue(text[2]) else 0, if |text| > 3 then DigitValue(text[3]) else 0;
      var value := a * 262144 + b * 4096 + c * 64 + d;
      Some([value / 65536, value / 256 % 256, value % 256][..|text| - 1])
  }

  function Min(a: nat, b: nat): nat {
    if a < b then a else b
  }

  function Base64(data: seq<Byte>): (r: seq<Byte>)
    ensures |r| == EncodedSize(|data|)
  {
    if data == [] then [] else Group(data[..Min(3, |data|)]) + Base64(data[Min(3, |data|)..])
  }

  function EncodedSize(n: nat): nat {
    n / 3 * 4 + if n % 3 == 0 then 0 else n % 3 + 1
  }

  function Unbase64(text: seq<Byte>): (r: Option<seq<Byte>>)
    ensures r.Some? ==> |r.value| == DecodedSize(|text|)
  {
    if text == [] then Some([])
    else
      var group := Ungroup(text[..Min(4, |text|)]);
      if group.None? then None else Prepend(group.value, Unbase64(text[Min(4, |text|)..]))
  }

  /** The size base64url_decode allocates, less the terminator. */
  function DecodedSize(n: nat): nat {
    n / 4 * 3 + if n % 4 == 2 then 1 else if n % 4 == 3 then 2 else 0
  }

  /** base64url_decode: nothing, a stray digit and too much are refused. */
  function Base64UrlDecoded(text: seq<Byte>): Option<seq<Byte>> {
    if text == [] || |text| % 4 == 1 || |text| > OAUTH_VALUE_MAX then None else Unbase64(text)
  }

  function Value(x: Byte, y: Byte, z: Byte): (v: int)
    ensures 0 <= v < 0x100_0000
  {
    x * 65536 + y * 256 + z
  }

  lemma BytesOf(x: Byte, y: Byte, z: Byte)
    ensures Value(x, y, z) / 65536 == x && Value(x, y, z) / 256 % 256 == y && Value(x, y, z) % 256 == z
  {
    assert Value(x, y, z) / 256 == x * 256 + y;
  }

  lemma DigitsOf(v: int)
    requires 0 <= v < 0x100_0000
    ensures 0 <= v / 262144 < 64
    ensures v == v / 262144 * 262144 + v / 4096 % 64 * 4096 + v / 64 % 64 * 64 + v % 64
  {
    assert v / 64 / 64 == v / 4096;
    assert v / 4096 / 64 == v / 262144;
  }

  lemma ShortGroups(x: Byte, y: Byte)
    ensures Value(x, y, 0) % 64 == 0 && Value(x, 0, 0) % 64 == 0 && Value(x, 0, 0) / 64 % 64 == 0
  {
    assert Value(x, y, 0) == 64 * (x * 1024 + y * 4);
    assert Value(x, 0, 0) / 64 == 64 * (x * 16);
  }

  lemma GroupRoundTrip(data: seq<Byte>)
    requires 1 <= |data| <= 3
    ensures Ungroup(Group(data)) == Some(data)
  {
    hide DigitValue, Digit, Value;
    var x, y, z := At(data, 0), At(data, 1), At(data, 2);
    var value := Value(x, y, z);
    BytesOf(x, y, z);
    DigitsOf(value);
    ShortGroups(x, y);
    DigitInverse(value / 262144);
    DigitInverse(value / 4096 % 64);
    DigitInverse(value / 64 % 64);
    DigitInverse(value % 64);
    var group := Group(data);
    forall i | 0 <= i < |group| ensures DigitValue(group[i]) >= 0 {}
    assert data == [At(data, 0), At(data, 1), At(data, 2)][..|data|];
  }

  lemma {:induction false} Unbase64OfBase64(data: seq<Byte>)
    ensures Unbase64(Base64(data)) == Some(data)
  {
    hide Group, Ungroup;
    if data != [] {
      var n := Min(3, |data|);
      var text, group := Base64(data), Group(data[..n]);
      GroupRoundTrip(data[..n]);
      Unbase64OfBase64(data[n..]);
      assert Min(4, |text|) == |group| by { if n < 3 { assert data[n..] == []; } }
      assert text[..|group|] == group && text[|group|..] == Base64(data[n..]);
      assert data == data[..n] + data[n..];
    }
  }

  /** Decoding undoes encoding on every input but the empty one and those whose encoding is over the limit, and
      refuses these. */
  lemma Base64RoundTrip(data: seq<Byte>)
    ensures Base64UrlDecoded(Base64(data)) ==
              if data != [] && (4 * |data| + 2) / 3 <= 262144 then Some(data) else None
  {
    hide Base64, Unbase64;
    Unbase64OfBase64(data);
    Sizes(|data|);
  }

  lemma Sizes(n: nat)
    ensures EncodedSize(n) % 4 != 1 && (EncodedSize(n) == 0 <==> n == 0) && EncodedSize(n) <= (n + 2) / 3 * 4
    ensures EncodedSize(n) == if n == 0 then 0 else if n < 3 then n + 1 else EncodedSize(n - 3) + 4
  {
  }

  lemma EmptyDecodes()
    ensures Unbase64([]) == Some([])
  {
  }

  lemma EmptyEncodes()
    ensures Base64([]) == []
  {
  }

  lemma EncodeStep(done: seq<Byte>, data: seq<Byte>, index: nat, n: nat)
    requires index < |data| && n == Min(3, |data| - index)
    ensures done + Base64(data[index..]) == done + Group(data[index..index + n]) + Base64(data[index + n..])
    ensures EncodedSize(|data| - index) == n + 1 + EncodedSize(|data| - index - n)
  {
    hide Group;
    var rest := data[index..];
    Sizes(|rest|);
    assert rest[..n] == data[index..index + n] && rest[n..] == data[index + n..];
    assert done + (Group(rest[..n]) + Base64(rest[n..])) == done + Group(rest[..n]) + Base64(rest[n..]);
  }

  lemma DecodeStep(done: seq<Byte>, text: seq<Byte>, index: nat, n: nat)
    requires index < |text| && n == Min(4, |text| - index)
    ensures var group := Ungroup(text[index..index + n]);
            Prepend(done, Unbase64(text[index..])) ==
            if group.None? then None else Prepend(done + group.value, Unbase64(text[index + n..]))
  {
    hide Ungroup;
    var rest := text[index..];
    assert rest[..n] == text[index..index + n] && rest[n..] == text[index + n..];
    if Ungroup(rest[..n]).Some? {
      PrependTwice(done, Ungroup(rest[..n]).value, Unbase64(rest[n..]));
    }
  }

  /** base64url_encode */
  method Base64UrlEncode(data: seq<Byte>) returns (encoded: seq<Byte>)
    ensures encoded == Base64(data)
  {
    hide Group, EncodedSize, Base64;
    var buffer := new Byte[(|data| + 2) / 3 * 4 + 1];
    var output, index := 0, 0;
    Sizes(|data|);
    while index < |data|
      invariant 0 <= index <= |data| && 0 <= output < buffer.Length
      invariant output + EncodedSize(|data| - index) == EncodedSize(|data|)
      invariant buffer[..output] + Base64(data[index..]) == Base64(data)
    {
      var n := Min(3, |data| - index);
      EncodeStep(buffer[..output], data, index, n);
      output := WriteGroup(buffer, output, data[index..index + n]);
      index := index + n;
    }
    assert data[index..] == [] && Base64([]) == [] by { EmptyEncodes(); }
    encoded := buffer[..output];
  }

  method WriteGroup(buffer: array<Byte>, output: nat, data: seq<Byte>) returns (end: nat)
    requires 1 <= |data| <= 3 && output + |data| + 1 <= buffer.Length
    modifies buffer
    ensures end == output + |data| + 1 && buffer[..end] == old(buffer[..output]) + Group(data)
  {
    hide Digit;
    var value := Value(data[0], 0, 0);
    if |data| > 1 { value := Value(data[0], data[1], 0); }
    if |data| > 2 { value := Value(data[0], data[1], data[2]); }
    assert value == Value(At(data, 0), At(data, 1), At(data, 2));
    DigitsOf(value);
    buffer[output], buffer[output + 1] := Digit(value / 262144), Digit(value / 4096 % 64);
    end := output + 2;
    if |data| > 1 {
      buffer[end] := Digit(value / 64 % 64);
      end := end + 1;
    }
    if |data| > 2 {
      buffer[end] := Digit(value % 64);
      end := end + 1;
    }
  }

  /** base64url_decode: the buffer is as long as what is decoded, and one more for the terminator. */
  method Base64UrlDecode(text: seq<Byte>) returns (decoded: Option<seq<Byte>>)
    ensures decoded == Base64UrlDecoded(text)
  {
    hide Ungroup, DecodedSize, Unbase64;
    var len := |text|;
    if len == 0 || len % 4 == 1 || len > OAUTH_VALUE_MAX { return None; }
    var size := len / 4 * 3;
    if len % 4 == 2 { size := size + 1; }
    if len % 4 == 3 { size := size + 2; }
    assert size == DecodedSize(len) by { DecodedSizeOf(len); }
    var buffer := new Byte[size + 1];
    var output, index := 0, 0;
    PrependNothing(Unbase64(text));
    assert buffer[..0] == [] && text[0..] == text;
    while index < len
      invariant 0 <= index <= len && 0 <= output <= size
      invariant output + DecodedSize(len - index) == size && (len - index) % 4 != 1
      invariant Prepend(buffer[..output], Unbase64(text[index..])) == Unbase64(text)
    {
      var n := Min(4, len - index);
      DecodedSizes(len - index);
      DecodeStep(buffer[..output], text, index, n);
      var ok, end := ReadGroup(buffer, output, text[index..index + n]);
      if !ok { return None; }
      output, index := end, index + n;
    }
    assert text[len..] == [] && Unbase64([]) == Some([]) by { EmptyDecodes(); }
    assert buffer[..output] + [] == buffer[..output];
    decoded := Some(buffer[..output]);
  }

  lemma DecodedSizeOf(n: nat)
    ensures DecodedSize(n) == n / 4 * 3 + (if n % 4 == 2 then 1 else if n % 4 == 3 then 2 else 0) && DecodedSize(0) == 0
  {
  }

  lemma DecodedSizes(n: nat)
    requires n > 0 && n % 4 != 1
    ensures DecodedSize(n) == if n < 4 then n - 1 else DecodedSize(n - 4) + 3
    ensures n >= 2 && (n >= 4 ==> (n - 4) % 4 != 1) && DecodedSize(0) == 0
  {
  }

  method ReadGroup(buffer: array<Byte>, output: nat, text: seq<Byte>) returns (ok: bool, end: nat)
    requires 2 <= |text| <= 4 && output + |text| - 1 <= buffer.Length
    modifies buffer
    ensures ok <==> Ungroup(text).Some?
    ensures ok ==> end == output + |text| - 1 && buffer[..end] == old(buffer[..output]) + Ungroup(text).value
  {
    hide DigitValue;
    var a, b := DigitValue(text[0]), DigitValue(text[1]);
    var c := if |text| > 2 then DigitValue(text[2]) else 0;
    var d := if |text| > 3 then DigitValue(text[3]) else 0;
    if a < 0 || b < 0 || (|text| > 2 && c < 0) || (|text| > 3 && d < 0) { return false, output; }
    var value := a * 262144 + b * 4096 + c * 64 + d;
    buffer[output] := value / 65536;
    end := output + 1;
    if |text| > 2 {
      buffer[end] := value / 256 % 256;
      end := end + 1;
    }
    if |text| > 3 {
      buffer[end] := value % 256;
      end := end + 1;
    }
    ok := true;
  }
}
