/**
 The query string of an OAuth callback: name=value fields joined by ampersands, both sides percent
 encoded. Names must differ; there must be a state and either a code or an error.
 */
module OAuthQuery {
  import opened Wrappers
  import opened OAuthCodec

  const OAUTH_QUERY_FIELDS_MAX := 16
  const AMP: Byte := '&' as int
  const EQUALS: Byte := '=' as int

  type Text = seq<Byte>

  const CODE: Text := ['c' as int, 'o' as int, 'd' as int, 'e' as int]
  const STATE: Text := ['s' as int, 't' as int, 'a' as int, 't' as int, 'e' as int]
  const ERROR: Text := ['e' as int, 'r' as int, 'r' as int, 'o' as int, 'r' as int]

  datatype Field = Field(name: Text, value: Text)

  datatype Callback = Callback(code: Option<Text>, state: Option<Text>, denial: Option<Text>)

  // ----- cutting -----

  /** memchr: where the byte first occurs, or the length. */
  function IndexOf(s: seq<Byte>, b: Byte): (i: nat)
    ensures i <= |s| && b !in s[..i] && (i < |s| ==> s[i] == b)
  {
    if s == [] || s[0] == b then 0
    else
      var rest := IndexOf(s[1..], b);
      assert s[..rest + 1] == [s[0]] + s[1..][..rest];
      rest + 1
  }

  lemma {:induction false} IndexOfAt(front: seq<Byte>, b: Byte, rest: seq<Byte>)
    requires b !in front
    ensures IndexOf(front + [b] + rest, b) == |front| && IndexOf(front, b) == |front|
  {
    if front != [] {
      IndexOfAt(front[1..], b, rest);
      assert (front + [b] + rest)[1..] == front[1..] + [b] + rest;
    }
  }

  /** One name=value part; the name is not empty, and neither is what it or the value decodes from. */
  function ReadField(part: seq<Byte>): Option<Field> {
    var e := IndexOf(part, EQUALS);
    if e == |part| || e == 0 then None
    else
      var name, value := UrlDecoded(part[..e]), UrlDecoded(part[e + 1..]);
      if name.None? || value.None? then None else Some(Field(name.value, value.value))
  }

  /** At most `room` fields, up to the end of the query; an ampersand at the end is an error. */
  function ReadFields(query: seq<Byte>, room: nat): Option<seq<Field>> {
    if query == [] then Some([])
    else if room == 0 then None
    else
      var a := IndexOf(query, AMP);
      var field := ReadField(query[..a]);
      if field.None? then None
      else if a == |query| then Some([field.value])
      else if a + 1 == |query| then None
      else Prepend([field.value], ReadFields(query[a + 1..], room - 1))
  }

  predicate DistinctNames(fields: seq<Field>) {
    forall i, j | 0 <= i < j < |fields| :: fields[i].name != fields[j].name
  }

  /** The value of the last field with this name; names are distinct when it matters. */
  function Lookup(fields: seq<Field>, name: Text): Option<Text> {
    if fields == [] then None
    else if fields[|fields| - 1].name == name then Some(fields[|fields| - 1].value)
    else Lookup(fields[..|fields| - 1], name)
  }

  function CallbackOf(fields: seq<Field>): Callback {
    Callback(Lookup(fields, CODE), Lookup(fields, STATE), Lookup(fields, ERROR))
  }

  predicate Complete(c: Callback) {
    c.state.Some? && (c.code.Some? <==> c.denial.None?)
  }

  function Verdict(fields: Option<seq<Field>>): Option<Callback> {
    if fields.Some? && DistinctNames(fields.value) && Complete(CallbackOf(fields.value))
    then Some(CallbackOf(fields.value)) else None
  }

  function ParseQuery(query: seq<Byte>): Option<Callback> {
    Verdict(ReadFields(query, OAUTH_QUERY_FIELDS_MAX))
  }

  // ----- the parser -----

  lemma {:induction false} LookupAppend(fields: seq<Field>, f: Field, name: Text)
    ensures Lookup(fields + [f], name) == if f.name == name then Some(f.value) else Lookup(fields, name)
  {
    assert (fields + [f])[..|fields|] == fields;
  }

  /** callback_set_field: refuses a name that has been seen. */
  method SetField(callback: Callback, names: seq<Text>, f: Field, ghost seen: seq<Field>) returns (r: Option<Callback>)
    requires callback == CallbackOf(seen)
    requires |names| == |seen| && forall i | 0 <= i < |names| :: names[i] == seen[i].name
    ensures r.Some? <==> forall i | 0 <= i < |seen| :: seen[i].name != f.name
    ensures r.Some? ==> r.value == CallbackOf(seen + [f])
  {
    hide Lookup;
    var index := 0;
    while index < |names|
      invariant 0 <= index <= |names|
      invariant forall i | 0 <= i < index :: seen[i].name != f.name
    {
      if names[index] == f.name { return None; }
      index := index + 1;
    }
    LookupAppend(seen, f, CODE);
    LookupAppend(seen, f, STATE);
    LookupAppend(seen, f, ERROR);
    assert |CODE| == 4 && CODE[0] == 'c' as int && |STATE| == 5 && STATE[0] == 's' as int;
    assert |ERROR| == 5 && ERROR[0] == 'e' as int;
    if f.name == CODE { return Some(callback.(code := Some(f.value))); }
    if f.name == STATE { return Some(callback.(state := Some(f.value))); }
    if f.name == ERROR { return Some(callback.(denial := Some(f.value))); }
    return Some(callback);
  }

  /** The loop of parse_callback_query. */
  method ReadCallback(query: seq<Byte>) returns (r: Option<Callback>, ghost seen: seq<Field>)
    ensures var all := ReadFields(query, OAUTH_QUERY_FIELDS_MAX);
            if r.None? then Verdict(all).None?
            else all == Some(seen) && DistinctNames(seen) && r.value == CallbackOf(seen)
  {
    hide CallbackOf, ReadField, ReadFields, DistinctNames, IndexOf, Complete, Prepend;
    var callback, names, offset := Callback(None, None, None), [], 0;
    ghost var all := ReadFields(query, OAUTH_QUERY_FIELDS_MAX);
    seen := [];
    Start(query);
    while offset < |query| && |names| < OAUTH_QUERY_FIELDS_MAX
      invariant 0 <= offset <= |query| && |names| == |seen| <= OAUTH_QUERY_FIELDS_MAX
      invariant forall i | 0 <= i < |names| :: names[i] == seen[i].name
      invariant callback == CallbackOf(seen) && DistinctNames(seen)
      invariant Prepend(seen, ReadFields(query[offset..], OAUTH_QUERY_FIELDS_MAX - |seen|)) == all
    {
      var rest := query[offset..];
      var a := IndexOf(rest, AMP);
      var field := ReadField(rest[..a]);
      Step(seen, rest, OAUTH_QUERY_FIELDS_MAX - |seen|, all);
      if field.None? { return None, seen; }
      var filled := SetField(callback, names, field.value, seen);
      if filled.None? {
        Repeated(seen, field.value, all);
        return None, seen;
      }
      DistinctMore(seen, field.value);
      callback, names, seen := filled.value, names + [field.value.name], seen + [field.value];
      if a == |rest| {
        offset := |query|;
        assert query[offset..] == [];
        AtEnd(seen, OAUTH_QUERY_FIELDS_MAX - |seen|);
        break;
      }
      assert rest[a + 1..] == query[offset + a + 1..];
      offset := offset + a + 1;
      if offset == |query| { return None, seen; }
    }
    if offset != |query| {
      NoRoom(seen, query[offset..]);
      return None, seen;
    }
    assert query[offset..] == [];
    AtEnd(seen, OAUTH_QUERY_FIELDS_MAX - |seen|);
    r := Some(callback);
  }

  /** parse_callback_query */
  method ParseCallbackQuery(query: seq<Byte>) returns (r: Option<Callback>)
    ensures r == ParseQuery(query)
  {
    hide ReadFields, DistinctNames, CallbackOf;
    ghost var seen: seq<Field>;
    r, seen := ReadCallback(query);
    if r.None? || r.value.state.None? { return None; }
    var callback := r.value;
    if (callback.code.None? && callback.denial.None?) || (callback.code.Some? && callback.denial.Some?) { return None; }
  }

  lemma NoRoom(seen: seq<Field>, rest: seq<Byte>)
    requires rest != []
    ensures Prepend(seen, ReadFields(rest, 0)).None?
  {
  }

  lemma Start(query: seq<Byte>)
    ensures Prepend([], ReadFields(query[0..], OAUTH_QUERY_FIELDS_MAX)) == ReadFields(query, OAUTH_QUERY_FIELDS_MAX)
    ensures CallbackOf([]) == Callback(None, None, None) && DistinctNames([])
  {
    assert query[0..] == query;
    PrependNothing(ReadFields(query, OAUTH_QUERY_FIELDS_MAX));
  }

  lemma GrowPrefix(seen: seq<Field>, rest: Option<seq<Field>>)
    ensures Prepend(seen, rest).Some? ==> seen <= Prepend(seen, rest).value
  {
  }

  lemma ReadFieldsUnfold(query: seq<Byte>, room: nat)
    requires query != [] && room > 0
    ensures var a := IndexOf(query, AMP);
            var field := ReadField(query[..a]);
            ReadFields(query, room) ==
            if field.None? || a + 1 == |query| then None
            else if a == |query| then Some([field.value])
            else Prepend([field.value], ReadFields(query[a + 1..], room - 1))
  {
    hide ReadField, Prepend, IndexOf;
  }

  /** What one turn of the loop says about the whole. */
  lemma Step(seen: seq<Field>, rest: seq<Byte>, room: nat, all: Option<seq<Field>>)
    requires rest != [] && room > 0 && Prepend(seen, ReadFields(rest, room)) == all
    ensures var a := IndexOf(rest, AMP);
            var field := ReadField(rest[..a]);
            if field.None? || a + 1 == |rest| then all.None?
            else if a == |rest| then all == Some(seen + [field.value])
            else all == Prepend(seen + [field.value], ReadFields(rest[a + 1..], room - 1))
    ensures var field := ReadField(rest[..IndexOf(rest, AMP)]);
            field.Some? && all.Some? ==> seen + [field.value] <= all.value
  {
    hide ReadField, ReadFields, IndexOf;
    ReadFieldsUnfold(rest, room);
    var a := IndexOf(rest, AMP);
    var field := ReadField(rest[..a]);
    if field.Some? && a + 1 < |rest| {
      PrependTwice(seen, [field.value], ReadFields(rest[a + 1..], room - 1));
      GrowPrefix(seen + [field.value], ReadFields(rest[a + 1..], room - 1));
    }
  }

  lemma AtEnd(seen: seq<Field>, room: nat)
    ensures Prepend(seen, ReadFields([], room)) == Some(seen)
  {
    assert seen + [] == seen;
  }

  lemma Repeated(seen: seq<Field>, f: Field, all: Option<seq<Field>>)
    requires exists i :: 0 <= i < |seen| && seen[i].name == f.name
    requires all.Some? ==> seen + [f] <= all.value
    ensures Verdict(all).None?
  {
    if all.Some? {
      var i :| 0 <= i < |seen| && seen[i].name == f.name;
      assert all.value[i] == (seen + [f])[i] && all.value[|seen|] == (seen + [f])[|seen|];
    }
  }

  lemma DistinctMore(seen: seq<Field>, f: Field)
    requires DistinctNames(seen) && forall i | 0 <= i < |seen| :: seen[i].name != f.name
    ensures DistinctNames(seen + [f])
  {
  }

  // ----- printing and reading back -----

  function PrintField(f: Field): seq<Byte> {
    UrlEncoded(f.name) + [EQUALS] + UrlEncoded(f.value)
  }

  function PrintQuery(fields: seq<Field>): seq<Byte> {
    if fields == [] then []
    else if |fields| == 1 then PrintField(fields[0])
    else PrintField(fields[0]) + [AMP] + PrintQuery(fields[1..])
  }

  /** What can be printed: names and values are not empty and hold no control bytes. */
  predicate Clean(f: Field) {
    f.name != [] && f.value != [] && AllPrintable(f.name) && AllPrintable(f.value)
  }

  lemma {:induction false} NoSeparators(value: seq<Byte>)
    ensures AMP !in UrlEncoded(value) && EQUALS !in UrlEncoded(value)
  {
    if value != [] {
      NoSeparators(value[1..]);
      assert AMP !in EncodeByte(value[0]) && EQUALS !in EncodeByte(value[0]);
    }
  }

  lemma FieldRoundTrip(f: Field)
    requires Clean(f)
    ensures ReadField(PrintField(f)) == Some(f) && AMP !in PrintField(f) && PrintField(f) != []
  {
    hide UrlEncoded, UrlDecoded;
    NoSeparators(f.name);
    NoSeparators(f.value);
    IndexOfAt(UrlEncoded(f.name), EQUALS, UrlEncoded(f.value));
    UrlRoundTrip(f.name);
    UrlRoundTrip(f.value);
    var part, e := PrintField(f), |UrlEncoded(f.name)|;
    assert part[..e] == UrlEncoded(f.name) && part[e + 1..] == UrlEncoded(f.value);
  }

  /** The first field of a query is what is printed before the first ampersand. */
  lemma FirstField(f: Field, rest: seq<Byte>, room: nat)
    requires Clean(f) && rest != [] && room > 0
    ensures ReadFields(PrintField(f) + [AMP] + rest, room) == Prepend([f], ReadFields(rest, room - 1))
  {
    hide ReadField, PrintField, Clean;
    FieldRoundTrip(f);
    IndexOfAt(PrintField(f), AMP, rest);
    var query := PrintField(f) + [AMP] + rest;
    assert query[..|PrintField(f)|] == PrintField(f) && query[|PrintField(f)| + 1..] == rest;
  }

  lemma OnlyField(f: Field, room: nat)
    requires Clean(f) && room > 0
    ensures ReadFields(PrintField(f), room) == Some([f])
  {
    hide ReadField, PrintField, Clean;
    FieldRoundTrip(f);
    IndexOfAt(PrintField(f), AMP, []);
    assert PrintField(f)[..|PrintField(f)|] == PrintField(f);
  }

  lemma {:induction false} FieldsRoundTrip(fields: seq<Field>, room: nat)
    requires forall f | f in fields :: Clean(f)
    ensures ReadFields(PrintQuery(fields), room) == if |fields| <= room then Some(fields) else None
    ensures PrintQuery(fields) == [] <==> fields == []
  {
    hide ReadField, PrintField, Clean;
    if fields != [] {
      var f := fields[0];
      assert f in fields;
      FieldRoundTrip(f);
      FieldsRoundTrip(fields[1..], if room > 0 then room - 1 else 0);
      if room > 0 {
        hide ReadFields;
        assert fields == [f] + fields[1..];
        if |fields| == 1 {
          OnlyField(f, room);
          assert fields == [f];
        } else {
          FirstField(f, PrintQuery(fields[1..]), room);
        }
      }
    }
  }

  /** A printed query is read back exactly when it has at most sixteen fields with distinct names, a state, and
      either a code or an error; anything else that is printed is refused. */
  lemma QueryRoundTrip(fields: seq<Field>)
    requires forall f | f in fields :: Clean(f)
    ensures ParseQuery(PrintQuery(fields)) ==
            if |fields| <= 16 && DistinctNames(fields) && Complete(CallbackOf(fields))
            then Some(CallbackOf(fields)) else None
  {
    FieldsRoundTrip(fields, OAUTH_QUERY_FIELDS_MAX);
  }
}
