/**
 Chat messages and the JSON they are saved as. JSON is a value here: printing and
 parsing a whole document lose nothing, and an object is a map because the serialiser
 never writes a member twice. What does change in a round trip is what the
 serialiser itself rewrites: missing roles, contents and tool-call ids become "",
 non-positive timestamps are dropped, and arguments come back as printed JSON.
 */
module Messages {
  import opened Wrappers

  /** The members the serialiser writes. */
  datatype Name = Role | Content | Thinking | Phase | ProviderState | ToolName | ErrorCategory | Id | ParentId
    | ForkGroupId | Timestamp | ToolCalls | ToolCallId | Type | Function | FunctionName | Arguments
    | ResultContent | ResultError

  datatype Json = JNull | JBool(b: bool) | JNumber(n: real) | JString(s: string)
    | JArray(items: seq<Json>) | JObject(members: map<string, Json>)

  /** The text of a tool call's arguments: what cJSON prints for a value, or any other text together
      with the value cJSON reads in it, if any. */
  datatype ArgumentText = Printed(value: Json) | Loose(raw: string, read: Option<Json>)

  /** None stands for a NULL pointer. */
  datatype ToolCall = ToolCall(id: Option<string>, name: Option<string>, arguments: Option<ArgumentText>,
                               resultContent: Option<string>, resultError: Option<string>)

  datatype Message = Message(role: Option<string>, content: Option<string>, id: Option<string>,
                             parentId: Option<string>, forkGroupId: Option<string>, toolCalls: seq<ToolCall>,
                             toolCallId: Option<string>, toolName: Option<string>, errorCategory: Option<string>,
                             timestamp: real, thinking: Option<string>, phase: Option<string>,
                             providerState: Option<string>)

  // ----- JSON objects -----

  function Key(name: Name): string {
    match name
    case Role => "role"
    case Content => "content"
    case Thinking => "thinking"
    case Phase => "phase"
    case ProviderState => "provider_state"
    case ToolName => "tool_name"
    case ErrorCategory => "error_category"
    case Id => "id"
    case ParentId => "parent_id"
    case ForkGroupId => "fork_group_id"
    case Timestamp => "timestamp"
    case ToolCalls => "tool_calls"
    case ToolCallId => "tool_call_id"
    case Type => "type"
    case Function => "function"
    case FunctionName => "name"
    case Arguments => "arguments"
    case ResultContent => "result_content"
    case ResultError => "result_error"
  }

  /** What tells the keys apart: their lengths and their first and third letters. */
  function Mark(key: string): (nat, char, char) {
    (|key|, if |key| > 0 then key[0] else '\0', if |key| > 2 then key[2] else '\0')
  }

  function MarkOf(name: Name): (nat, char, char) {
    match name
    case Role => (4, 'r', 'l')
    case Content => (7, 'c', 'n')
    case Thinking => (8, 't', 'i')
    case Phase => (5, 'p', 'a')
    case ProviderState => (14, 'p', 'o')
    case ToolName => (9, 't', 'o')
    case ErrorCategory => (14, 'e', 'r')
    case Id => (2, 'i', '\0')
    case ParentId => (9, 'p', 'r')
    case ForkGroupId => (13, 'f', 'r')
    case Timestamp => (9, 't', 'm')
    case ToolCalls => (10, 't', 'o')
    case ToolCallId => (12, 't', 'o')
    case Type => (4, 't', 'p')
    case Function => (8, 'f', 'n')
    case FunctionName => (4, 'n', 'm')
    case Arguments => (9, 'a', 'g')
    case ResultContent => (14, 'r', 's')
    case ResultError => (12, 'r', 's')
  }

  lemma KeyHasMark(name: Name)
    ensures Mark(Key(name)) == MarkOf(name)
  {
  }

  lemma MarksDiffer(a: Name, b: Name)
    ensures MarkOf(a) == MarkOf(b) ==> a == b
  {
  }

  /** No two members share a key. */
  lemma KeysDiffer()
    ensures forall a: Name, b: Name | Key(a) == Key(b) :: a == b
  {
    hide Key, MarkOf;
    forall a: Name, b: Name | Key(a) == Key(b) ensures a == b {
      KeyHasMark(a);
      KeyHasMark(b);
      MarksDiffer(a, b);
    }
  }

  /** The name that has this key; keys that the serialiser does not know do not matter. */
  function NameOf(key: string): Name {
    KeysDiffer();
    if exists n: Name :: Key(n) == key then (var n: Name :| Key(n) == key; n) else Role
  }

  lemma NameOfKey(name: Name)
    ensures NameOf(Key(name)) == name
  {
    hide Key;
    KeysDiffer();
  }

  /** An object from what it has under each name. */
  function Object(member: Name -> Option<Json>): Json {
    var keys := set n: Name | member(n).Some? :: Key(n);
    JObject(map key | key in keys && member(NameOf(key)).Some? :: member(NameOf(key)).value)
  }

  lemma ObjectField(member: Name -> Option<Json>, name: Name)
    ensures Field(Object(member), name) == member(name)
  {
    hide Key, NameOf;
    NameOfKey(name);
  }

  function Text(value: Option<string>): Option<Json> {
    if value.Some? then Some(JString(value.value)) else None
  }

  /** A missing string is written as "". */
  function Present(value: Option<string>): Option<string> {
    Some(value.GetOr(""))
  }

  function Field(item: Json, name: Name): Option<Json> {
    if item.JObject? && Key(name) in item.members then Some(item.members[Key(name)]) else None
  }

  /** cJSON_GetObjectItem(item, name)->valuestring */
  function TextField(item: Json, name: Name): Option<string> {
    StringValue(Field(item, name))
  }

  function StringValue(value: Option<Json>): Option<string> {
    if value.Some? && value.value.JString? then Some(value.value.s) else None
  }

  // ----- specification of writing and reading -----

  function ArgumentsToJson(arguments: Option<ArgumentText>): Json {
    match arguments
    case Some(Printed(v)) => v
    case Some(Loose(_, Some(v))) => v
    case Some(Loose(raw, None)) => JString(raw)
    case None => JString("")
  }

  function FunctionMember(call: ToolCall, name: Name): Option<Json> {
    match name
    case FunctionName => Text(Present(call.name))
    case Arguments => Some(ArgumentsToJson(call.arguments))
    case _ => None
  }

  function FunctionToJson(call: ToolCall): Json {
    Object(n => FunctionMember(call, n))
  }

  /** The member a written tool call has under each name. */
  function CallMember(call: ToolCall, name: Name): Option<Json> {
    match name
    case Id => Text(Present(call.id))
    case Type => Some(JString("function"))
    case Function => Some(FunctionToJson(call))
    case ResultContent => Text(call.resultContent)
    case ResultError => Text(call.resultError)
    case _ => None
  }

  function CallToJson(call: ToolCall): Json {
    Object(n => CallMember(call, n))
  }

  function CallsToJson(calls: seq<ToolCall>): seq<Json> {
    seq(|calls|, i requires 0 <= i < |calls| => CallToJson(calls[i]))
  }

  /** The member a written message has under each name. */
  function MessageMember(m: Message, name: Name): Option<Json> {
    match name
    case Role => Text(Present(m.role))
    case Content => Text(Present(m.content))
    case Thinking => Text(m.thinking)
    case Phase => Text(m.phase)
    case ProviderState => Text(m.providerState)
    case ToolName => Text(m.toolName)
    case ErrorCategory => Text(m.errorCategory)
    case Id => Text(m.id)
    case ParentId => Text(m.parentId)
    case ForkGroupId => Text(m.forkGroupId)
    case Timestamp => if m.timestamp > 0.0 then Some(JNumber(m.timestamp)) else None
    case ToolCalls => if m.toolCalls != [] then Some(JArray(CallsToJson(m.toolCalls))) else None
    case ToolCallId => Text(m.toolCallId)
    case _ => None
  }

  function MessageToJson(m: Message): Json {
    Object(n => MessageMember(m, n))
  }

  function ToJson(ms: seq<Message>): (document: Json)
    ensures document.JArray? && |document.items| == |ms|
  {
    JArray(seq(|ms|, i requires 0 <= i < |ms| => MessageToJson(ms[i])))
  }

  function CallFromJson(item: Json): ToolCall {
    var function' := Field(item, Function).GetOr(JNull);
    ToolCall(TextField(item, Id), TextField(function', FunctionName),
             match Field(function', Arguments) case Some(v) => Some(Printed(v)) case None => None,
             TextField(item, ResultContent), TextField(item, ResultError))
  }

  function CallsFromJson(items: seq<Json>): seq<ToolCall> {
    seq(|items|, i requires 0 <= i < |items| => CallFromJson(items[i]))
  }

  function MessageFromJson(item: Json): Message {
    Message(Present(TextField(item, Role)), Present(TextField(item, Content)), TextField(item, Id),
            TextField(item, ParentId), TextField(item, ForkGroupId),
            var calls := Field(item, ToolCalls);
            if calls.Some? && calls.value.JArray? then CallsFromJson(calls.value.items) else [],
            TextField(item, ToolCallId), TextField(item, ToolName), TextField(item, ErrorCategory),
            var stamp := Field(item, Timestamp); if stamp.Some? && stamp.value.JNumber? then stamp.value.n else 0.0,
            TextField(item, Thinking), TextField(item, Phase), TextField(item, ProviderState))
  }

  function MessagesFromJson(items: seq<Json>): (ms: seq<Message>)
    ensures |ms| == |items|
  {
    seq(|items|, i requires 0 <= i < |items| => MessageFromJson(items[i]))
  }

  /** Err when the document is not an array. */
  function FromJson(document: Json): Result<seq<Message>> {
    if document.JArray? then Ok(MessagesFromJson(document.items)) else Err
  }

  // ----- round trip -----

  predicate StableCall(call: ToolCall) {
    call.id.Some? && call.name.Some? && call.arguments.Some? && call.arguments.value.Printed?
  }

  /** What every message read back from a saved document looks like. */
  predicate StableMessage(m: Message) {
    m.role.Some? && m.content.Some? && m.timestamp >= 0.0 && forall c | c in m.toolCalls :: StableCall(c)
  }

  predicate Stable(ms: seq<Message>) {
    forall i | 0 <= i < |ms| :: StableMessage(ms[i])
  }

  /** What one trip through a document makes of a call and of a message. */
  function Settle(call: ToolCall): ToolCall {
    call.(id := Present(call.id), name := Present(call.name),
          arguments := Some(Printed(ArgumentsToJson(call.arguments))))
  }

  function SettleMessage(m: Message): Message {
    m.(role := Present(m.role), content := Present(m.content),
       timestamp := if m.timestamp > 0.0 then m.timestamp else 0.0,
       toolCalls := SettleCalls(m.toolCalls))
  }

  function SettleCalls(calls: seq<ToolCall>): seq<ToolCall> {
    seq(|calls|, i requires 0 <= i < |calls| => Settle(calls[i]))
  }

  lemma CallField(call: ToolCall, name: Name)
    ensures Field(CallToJson(call), name) == CallMember(call, name)
  {
    ObjectField(n => CallMember(call, n), name);
  }

  lemma FunctionField(call: ToolCall)
    ensures var f := FunctionToJson(call);
            && Field(f, FunctionName) == Text(Present(call.name))
            && Field(f, Arguments) == Some(ArgumentsToJson(call.arguments))
  {
    hide Key;
    ObjectField(n => FunctionMember(call, n), FunctionName);
    ObjectField(n => FunctionMember(call, n), Arguments);
  }

  lemma CallTrip(call: ToolCall)
    ensures CallFromJson(CallToJson(call)) == Settle(call)
  {
    hide CallToJson, Object, Field, Key, FunctionMember;
    FunctionField(call);
    CallField(call, Id);
    CallField(call, Function);
    CallField(call, ResultContent);
    CallField(call, ResultError);
  }

  lemma CallsTrip(calls: seq<ToolCall>)
    ensures CallsFromJson(CallsToJson(calls)) == SettleCalls(calls)
  {
    hide CallToJson, CallFromJson, Settle;
    forall i | 0 <= i < |calls| ensures CallFromJson(CallToJson(calls[i])) == Settle(calls[i]) {
      CallTrip(calls[i]);
    }
  }

  lemma MessageField(m: Message, name: Name)
    ensures Field(MessageToJson(m), name) == MessageMember(m, name)
  {
    ObjectField(n => MessageMember(m, n), name);
  }

  lemma MessageTripIdentity(m: Message)
    ensures var back := MessageFromJson(MessageToJson(m));
            && back.role == Present(m.role) && back.content == Present(m.content) && back.id == m.id
            && back.parentId == m.parentId && back.forkGroupId == m.forkGroupId
            && back.timestamp == SettleMessage(m).timestamp
  {
    hide MessageToJson, CallsToJson, CallsFromJson, CallMember, Field;
    MessageField(m, Role);
    MessageField(m, Content);
    MessageField(m, Id);
    MessageField(m, ParentId);
    MessageField(m, ForkGroupId);
    MessageField(m, Timestamp);
  }

  lemma MessageTripTools(m: Message)
    ensures var back := MessageFromJson(MessageToJson(m));
            && back.toolCalls == SettleCalls(m.toolCalls) && back.toolCallId == m.toolCallId
            && back.toolName == m.toolName && back.errorCategory == m.errorCategory
            && back.thinking == m.thinking && back.phase == m.phase && back.providerState == m.providerState
  {
    hide MessageToJson, CallsToJson, CallsFromJson, CallMember, Field;
    MessageField(m, ToolCalls);
    MessageField(m, ToolCallId);
    MessageField(m, ToolName);
    MessageField(m, ErrorCategory);
    MessageField(m, Thinking);
    MessageField(m, Phase);
    MessageField(m, ProviderState);
    CallsTrip(m.toolCalls);
  }

  lemma MessageTrip(m: Message)
    ensures MessageFromJson(MessageToJson(m)) == SettleMessage(m)
  {
    hide MessageToJson, MessageFromJson;
    MessageTripIdentity(m);
    MessageTripTools(m);
  }

  lemma SettledIsStable(m: Message)
    ensures StableMessage(SettleMessage(m))
    ensures SettleMessage(m) == m <==> StableMessage(m)
  {
    var calls := SettleMessage(m).toolCalls;
    assert forall i | 0 <= i < |calls| ::
        StableCall(calls[i]) && (calls[i] == m.toolCalls[i] <==> StableCall(m.toolCalls[i]));
    assert calls == m.toolCalls <==> forall c | c in m.toolCalls :: StableCall(c);
  }

  /** Reading undoes writing exactly on stable messages, and only stable messages are ever read back. */
  lemma RoundTrip(ms: seq<Message>)
    ensures var back := FromJson(ToJson(ms));
            back.Ok? && Stable(back.value) && (back.value == ms <==> Stable(ms))
  {
    var back := FromJson(ToJson(ms)).value;
    forall i | 0 <= i < |ms|
      ensures back[i] == MessageFromJson(MessageToJson(ms[i]))
      ensures StableMessage(back[i]) && (back[i] == ms[i] <==> StableMessage(ms[i]))
    {
      MessageTrip(ms[i]);
      SettledIsStable(ms[i]);
    }
  }

  // ----- the documents themselves -----

  /** The object has this value under the key, or nothing. */
  predicate Has(item: Json, key: string, value: Option<Json>) {
    && item.JObject?
    && if value.Some? then key in item.members && item.members[key] == value.value else key !in item.members
  }

  lemma FieldHas(item: Json, name: Name)
    requires item.JObject?
    ensures Has(item, Key(name), Field(item, name))
  {
  }

  /** What a written message looks like in the saved document. */
  lemma WrittenMessage(m: Message)
    ensures var item := MessageToJson(m);
            && Has(item, "role", Some(JString(m.role.GetOr(""))))
            && Has(item, "content", Some(JString(m.content.GetOr(""))))
            && Has(item, "id", Text(m.id)) && Has(item, "parent_id", Text(m.parentId))
            && Has(item, "fork_group_id", Text(m.forkGroupId))
            && Has(item, "timestamp", if m.timestamp > 0.0 then Some(JNumber(m.timestamp)) else None)
  {
    hide MessageToJson, Field, Has;
    forall name: Name ensures Has(MessageToJson(m), Key(name), MessageMember(m, name)) {
      MessageField(m, name);
      IsObject(m);
      FieldHas(MessageToJson(m), name);
    }
    assert Key(Role) == "role" && Key(Content) == "content" && Key(Id) == "id" && Key(ParentId) == "parent_id";
    assert Key(ForkGroupId) == "fork_group_id" && Key(Timestamp) == "timestamp";
  }

  lemma IsObject(m: Message)
    ensures MessageToJson(m).JObject?
  {
  }

  lemma WrittenExtras(m: Message)
    ensures var item := MessageToJson(m);
            && Has(item, "thinking", Text(m.thinking)) && Has(item, "phase", Text(m.phase))
            && Has(item, "provider_state", Text(m.providerState)) && Has(item, "tool_name", Text(m.toolName))
            && Has(item, "error_category", Text(m.errorCategory)) && Has(item, "tool_call_id", Text(m.toolCallId))
            && Has(item, "tool_calls", if m.toolCalls != [] then Some(JArray(CallsToJson(m.toolCalls))) else None)
  {
    hide MessageToJson, Field, Has, CallsToJson;
    forall name: Name ensures Has(MessageToJson(m), Key(name), MessageMember(m, name)) {
      MessageField(m, name);
      IsObject(m);
      FieldHas(MessageToJson(m), name);
    }
    assert Key(Thinking) == "thinking" && Key(Phase) == "phase" && Key(ProviderState) == "provider_state";
    assert Key(ToolName) == "tool_name" && Key(ErrorCategory) == "error_category" && Key(ToolCallId) == "tool_call_id";
    assert Key(ToolCalls) == "tool_calls";
  }

  /** What a written tool call looks like. */
  lemma WrittenCall(call: ToolCall)
    ensures var item := CallToJson(call);
            && Has(item, "id", Some(JString(call.id.GetOr("")))) && Has(item, "type", Some(JString("function")))
            && Has(item, "result_content", Text(call.resultContent))
            && Has(item, "result_error", Text(call.resultError))
            && Has(item, "function", Some(FunctionToJson(call)))
  {
    hide CallToJson, FunctionToJson, Field, Has;
    forall name: Name ensures Has(CallToJson(call), Key(name), CallMember(call, name)) {
      CallField(call, name);
      CallIsObject(call);
      FieldHas(CallToJson(call), name);
    }
    assert Key(Id) == "id" && Key(Type) == "type" && Key(Function) == "function";
    assert Key(ResultContent) == "result_content" && Key(ResultError) == "result_error";
  }

  lemma WrittenFunction(call: ToolCall)
    ensures Has(FunctionToJson(call), "name", Some(JString(call.name.GetOr(""))))
    ensures Has(FunctionToJson(call), "arguments", Some(match call.arguments
                                                        case Some(Printed(v)) => v
                                                        case Some(Loose(_, Some(v))) => v
                                                        case Some(Loose(raw, None)) => JString(raw)
                                                        case None => JString("")))
  {
    FunctionField(call);
    assert FunctionToJson(call).JObject?;
    hide FunctionToJson, Field, Has;
    FieldHas(FunctionToJson(call), FunctionName);
    FieldHas(FunctionToJson(call), Arguments);
    assert Key(FunctionName) == "name" && Key(Arguments) == "arguments";
  }

  lemma CallIsObject(call: ToolCall)
    ensures CallToJson(call).JObject?
  {
  }

  /** Nothing else is written. */
  lemma WrittenKeys(m: Message, key: string)
    requires key in MessageToJson(m).members
    ensures key in {"role", "content", "thinking", "phase", "provider_state", "tool_name", "error_category", "id",
                    "parent_id", "fork_group_id", "timestamp", "tool_calls", "tool_call_id"}
  {
    var member := n => MessageMember(m, n);
    var keys := set n: Name | member(n).Some? :: Key(n);
    assert key in keys;
  }

  // ----- the loops -----

  /** messages_to_json_array */
  method MessagesToJsonArray(ms: seq<Message>) returns (document: Json)
    ensures document == ToJson(ms)
  {
    hide MessageToJson;
    var items: seq<Json> := [];
    for i := 0 to |ms|
      invariant |items| == i && forall k | 0 <= k < i :: items[k] == MessageToJson(ms[k])
    {
      items := items + [MessageToJson(ms[i])];
    }
    document := JArray(items);
  }
}
