/**
 The function calls of a Codex stream. Events name a call by its output index, its item id or its
 call id; the table binds these keys to one slot of the response. Proved here: however the events
 of several calls are interleaved, every call is put together from its own.
 */
module CodexCalls {
  import opened Wrappers

  const INT_MAX := 0x7FFF_FFFF

  datatype ToolCall = ToolCall(id: string, name: string, arguments: string)

  /** The keys bound to a slot of the response; -1 is no output index. */
  datatype Binding = Binding(outputIndex: int, slot: nat, itemId: Option<string>)

  datatype CallTable = CallTable(calls: seq<ToolCall>, bindings: seq<Binding>)

  const NO_CALLS := CallTable([], [])

  /** A way to name a call. */
  datatype Keys = Keys(outputIndex: int, itemId: Option<string>, callId: Option<string>)

  /** What a function_call item says. */
  datatype CallItem = CallItem(itemId: Option<string>, callId: Option<string>, name: Option<string>,
                               arguments: Option<string>)

  /** Every slot has its binding, in the same order; there are as many as an int can count. */
  predicate Bound(t: CallTable) {
    && |t.bindings| == |t.calls| <= 0x7FFF_FFFF
    && forall i | 0 <= i < |t.bindings| :: t.bindings[i].slot == i
  }

  predicate Matches(t: CallTable, i: nat, keys: Keys)
    requires Bound(t) && i < |t.bindings|
  {
    var b := t.bindings[i];
    || (keys.outputIndex >= 0 && b.outputIndex == keys.outputIndex)
    || (keys.itemId.Some? && b.itemId == keys.itemId)
    || (keys.callId.Some? && t.calls[b.slot].id != "" && t.calls[b.slot].id == keys.callId.value)
  }

  /** The first binding from `i` on that matches. */
  function Find(t: CallTable, i: nat, keys: Keys): (r: Option<nat>)
    requires Bound(t) && i <= |t.bindings|
    ensures r.Some? ==> i <= r.value < |t.bindings| && Matches(t, r.value, keys)
    ensures forall k | i <= k < (if r.Some? then r.value else |t.bindings|) :: !Matches(t, k, keys)
    decreases |t.bindings| - i
  {
    if i == |t.bindings| then None else if Matches(t, i, keys) then Some(i) else Find(t, i + 1, keys)
  }

  /** A new slot and its binding. */
  function Add(t: CallTable, keys: Keys, name: Option<string>, arguments: Option<string>): (r: Option<CallTable>)
    requires Bound(t)
    ensures r.Some? ==> Bound(r.value)
  {
    if |t.bindings| >= INT_MAX || |t.calls| >= INT_MAX then None
    else
      Some(CallTable(t.calls + [ToolCall(keys.callId.GetOr(""), name.GetOr(""), arguments.GetOr(""))],
                     t.bindings + [Binding(keys.outputIndex, |t.calls|, keys.itemId)]))
  }

  /** A field that is set already keeps its value; saying another one is an error. */
  predicate Agrees(field: string, value: Option<string>) {
    value.Some? && field != "" ==> field == value.value
  }

  /** output_item.added, output_item.done and the items of the completed response: new or filled in. */
  function Upsert(t: CallTable, outputIndex: int, item: CallItem): (r: Option<CallTable>)
    requires Bound(t)
    ensures r.Some? ==> Bound(r.value)
  {
    var keys := Keys(outputIndex, item.itemId, item.callId);
    var found := Find(t, 0, keys);
    if found.None? then Add(t, keys, item.name, item.arguments)
    else
      var b := t.bindings[found.value];
      var call := t.calls[b.slot];
      if (outputIndex >= 0 && b.outputIndex >= 0 && b.outputIndex != outputIndex)
         || !Agrees(b.itemId.GetOr(""), item.itemId) || !Agrees(call.id, item.callId)
         || !Agrees(call.name, item.name) then None
      else
        var bound := Binding(if b.outputIndex < 0 then outputIndex else b.outputIndex, b.slot,
                             if item.itemId.Some? then item.itemId else b.itemId);
        var filled := ToolCall(item.callId.GetOr(call.id), item.name.GetOr(call.name),
                               item.arguments.GetOr(call.arguments));
        Some(CallTable(t.calls[b.slot := filled], t.bindings[found.value := bound]))
  }

  /** function_call_arguments.delta appends, .done replaces; a call nobody has announced gets a slot. */
  function Argue(t: CallTable, keys: Keys, value: string, done: bool): (r: Option<CallTable>)
    requires Bound(t)
    ensures r.Some? ==> Bound(r.value)
  {
    var found := Find(t, 0, keys);
    var there := if found.Some? then Some(t) else Add(t, keys, None, None);
    if there.None? then None
    else
      var i := if found.Some? then found.value else |t.bindings|;
      var slot := there.value.bindings[i].slot;
      var call := there.value.calls[slot];
      var arguments := if done then value else call.arguments + value;
      Some(there.value.(calls := there.value.calls[slot := call.(arguments := arguments)]))
  }

  // ----- reassembly -----

  /** A call as the model makes it. */
  datatype Call = Call(outputIndex: nat, itemId: string, callId: string, name: string)

  /** Which of a call's keys an event carries. */
  datatype Which = Which(index: bool, item: bool, call: bool)

  /** What happens to call k: it is announced with all its keys, its arguments arrive in pieces or at once
      under some of them, it is said again as a whole. */
  datatype Step =
    | Announce(k: nat, arguments: Option<string>)
    | Delta(k: nat, via: Which, text: string)
    | Done(k: nat, via: Which, text: string)
    | Again(k: nat, arguments: Option<string>)

  predicate Distinct(made: seq<Call>) {
    && (forall k | 0 <= k < |made| :: made[k].callId != "")
    && forall j, k | 0 <= j < k < |made| ::
        made[j].outputIndex != made[k].outputIndex && made[j].itemId != made[k].itemId
          && made[j].callId != made[k].callId
  }

  /** The calls in the order in which they are announced. */
  function Order(trace: seq<Step>): seq<nat> {
    if trace == [] then []
    else
      var before := Order(trace[..|trace| - 1]);
      if trace[|trace| - 1].Announce? then before + [trace[|trace| - 1].k] else before
  }

  /** Every call is announced once, before anything else is said about it, and every event names its call. */
  predicate Orderly(made: seq<Call>, trace: seq<Step>) {
    trace != [] ==>
      var before, step := trace[..|trace| - 1], trace[|trace| - 1];
      && Orderly(made, before) && step.k < |made|
      && (step.Announce? <==> step.k !in Order(before))
      && (step.Delta? || step.Done? ==> step.via.index || step.via.item || step.via.call)
  }

  /** The arguments of call k, from what is said about it alone. */
  function Arguments(trace: seq<Step>, k: nat): string {
    if trace == [] then "" else ArgumentsAfter(Arguments(trace[..|trace| - 1], k), trace[|trace| - 1], k)
  }

  function ArgumentsAfter(before: string, step: Step, k: nat): string {
    if step.k != k then before
    else match step
      case Announce(_, arguments) => arguments.GetOr("")
      case Delta(_, _, text) => before + text
      case Done(_, _, text) => text
      case Again(_, arguments) => arguments.GetOr(before)
  }

  function WholeItem(c: Call, arguments: Option<string>): CallItem {
    CallItem(Some(c.itemId), Some(c.callId), Some(c.name), arguments)
  }

  function SomeKeys(c: Call, via: Which): Keys {
    Keys(if via.index then c.outputIndex else -1, if via.item then Some(c.itemId) else None,
         if via.call then Some(c.callId) else None)
  }

  function Take(t: CallTable, made: seq<Call>, step: Step): (r: Option<CallTable>)
    requires Bound(t) && step.k < |made|
    ensures r.Some? ==> Bound(r.value)
  {
    var c := made[step.k];
    match step
    case Announce(_, arguments) => Upsert(t, c.outputIndex, WholeItem(c, arguments))
    case Again(_, arguments) => Upsert(t, c.outputIndex, WholeItem(c, arguments))
    case Delta(_, via, text) => Argue(t, SomeKeys(c, via), text, false)
    case Done(_, via, text) => Argue(t, SomeKeys(c, via), text, true)
  }

  function TakeAll(made: seq<Call>, trace: seq<Step>): (r: Option<CallTable>)
    requires Orderly(made, trace)
    ensures r.Some? ==> Bound(r.value)
  {
    if trace == [] then Some(NO_CALLS)
    else
      var before := TakeAll(made, trace[..|trace| - 1]);
      if before.None? then None else Take(before.value, made, trace[|trace| - 1])
  }

  /** The table holds the announced calls in their order, each with its own arguments. */
  ghost predicate Holds(t: CallTable, made: seq<Call>, trace: seq<Step>) {
    var order := Order(trace);
    && |t.calls| == |t.bindings| == |order|
    && forall i | 0 <= i < |order| ::
        && order[i] < |made|
        && t.bindings[i] == Binding(made[order[i]].outputIndex, i, Some(made[order[i]].itemId))
        && t.calls[i] == ToolCall(made[order[i]].callId, made[order[i]].name, Arguments(trace, order[i]))
  }

  predicate NoRepeats(order: seq<nat>) {
    forall i, j | 0 <= i < j < |order| :: order[i] != order[j]
  }

  lemma {:induction false} OrderNoRepeats(made: seq<Call>, trace: seq<Step>)
    requires Orderly(made, trace)
    ensures NoRepeats(Order(trace)) && forall k | k in Order(trace) :: k < |made|
  {
    if trace != [] {
      OrderNoRepeats(made, trace[..|trace| - 1]);
    }
  }

  /** Any of a call's keys leads to its slot and to no other; a call not yet announced is not found. */
  lemma FindCall(t: CallTable, made: seq<Call>, trace: seq<Step>, k: nat, via: Which)
    requires Holds(t, made, trace) && Distinct(made) && NoRepeats(Order(trace)) && k < |made| && Bound(t)
    requires via.index || via.item || via.call
    ensures var found := Find(t, 0, SomeKeys(made[k], via));
            if k in Order(trace) then found.Some? && Order(trace)[found.value] == k else found.None?
  {
    hide Order, Arguments;
    var keys, order := SomeKeys(made[k], via), Order(trace);
    forall i | 0 <= i < |order| ensures Matches(t, i, keys) <==> order[i] == k {
      var j := order[i];
      if j < k { assert made[j].callId != made[k].callId; }
      if k < j { assert made[k].callId != made[j].callId; }
    }
  }

  lemma StepHolds(t: CallTable, made: seq<Call>, before: seq<Step>, step: Step)
    requires Holds(t, made, before) && Distinct(made) && Orderly(made, before + [step]) && Bound(t) && step.k < |made|
    requires |Order(before + [step])| <= INT_MAX
    ensures var r := Take(t, made, step);
            r.Some? && Holds(r.value, made, before + [step])
  {
    hide Find, Distinct, Orderly;
    var trace, order := before + [step], Order(before);
    assert trace[..|trace| - 1] == before && Orderly(made, before) && (step.Announce? <==> step.k !in order) by {
      OneStep(made, before, step);
    }
    OrderNoRepeats(made, before);
    var all := Which(true, true, true);
    var via := if step.Delta? || step.Done? then step.via else all;
    assert via.index || via.item || via.call by { OneStep(made, before, step); }
    FindCall(t, made, before, step.k, via);
    assert SomeKeys(made[step.k], all) ==
        Keys(made[step.k].outputIndex, Some(made[step.k].itemId), Some(made[step.k].callId));
    hide Arguments;
    forall k: nat ensures Arguments(trace, k) == ArgumentsAfter(Arguments(before, k), step, k) {
      ArgumentsOneMore(before, step, k);
    }
  }

  lemma OneStep(made: seq<Call>, before: seq<Step>, step: Step)
    requires Orderly(made, before + [step])
    ensures (before + [step])[..|before|] == before && Orderly(made, before)
    ensures step.Announce? <==> step.k !in Order(before)
    ensures step.Delta? || step.Done? ==> step.via.index || step.via.item || step.via.call
  {
    assert (before + [step])[..|before|] == before;
  }

  lemma ArgumentsOneMore(before: seq<Step>, step: Step, k: nat)
    ensures Arguments(before + [step], k) == ArgumentsAfter(Arguments(before, k), step, k)
  {
    assert (before + [step])[..|before|] == before;
  }

  /** Every interleaving gives one entry per call, in the order of announcement, with the arguments that the
      events of that call alone add up to. */
  lemma {:induction false} Reassembles(made: seq<Call>, trace: seq<Step>)
    requires Distinct(made) && Orderly(made, trace) && |Order(trace)| <= INT_MAX
    ensures TakeAll(made, trace).Some? && Holds(TakeAll(made, trace).value, made, trace)
  {
    if trace != [] {
      hide Holds, Distinct, Take, TakeAll, Order;
      var before, step := trace[..|trace| - 1], trace[|trace| - 1];
      assert trace == before + [step];
      OrderGrows(before, step);
      Reassembles(made, before);
      StepHolds(TakeAll(made, before).value, made, before, step);
      TakeAllOneMore(made, before, step);
    }
  }

  lemma OrderGrows(before: seq<Step>, step: Step)
    ensures |Order(before)| <= |Order(before + [step])|
  {
    assert (before + [step])[..|before|] == before;
  }

  lemma TakeAllOneMore(made: seq<Call>, before: seq<Step>, step: Step)
    requires Orderly(made, before + [step]) && Orderly(made, before) && step.k < |made| && TakeAll(made, before).Some?
    ensures TakeAll(made, before + [step]) == Take(TakeAll(made, before).value, made, step)
  {
    hide Take, Orderly;
    assert (before + [step])[..|before|] == before;
  }

  /** The pieces of call k. */
  function Pieces(trace: seq<Step>, k: nat): string {
    if trace == [] then ""
    else Pieces(trace[..|trace| - 1], k)
         + if trace[|trace| - 1].k == k && trace[|trace| - 1].Delta? then trace[|trace| - 1].text else ""
  }

  /** Nothing says the arguments of call k as a whole. */
  predicate InPieces(trace: seq<Step>, k: nat) {
    forall s | s in trace && s.k == k :: s.Delta? || (!s.Done? && s.arguments.None?)
  }

  /** A call whose arguments arrive only in pieces has the pieces in their order. */
  lemma {:induction false} PiecesInOrder(made: seq<Call>, trace: seq<Step>, k: nat)
    requires Orderly(made, trace) && InPieces(trace, k)
    ensures Arguments(trace, k) == Pieces(trace, k)
    ensures k !in Order(trace) ==> Pieces(trace, k) == ""
  {
    if trace != [] {
      var before, step := trace[..|trace| - 1], trace[|trace| - 1];
      assert step in trace;
      PiecesInOrder(made, before, k);
    }
  }

  /** A done event has the last word, and later items that repeat the arguments or leave them out do not disturb it. */
  lemma {:induction false} DoneHolds(before: seq<Step>, k: nat, via: Which, text: string, after: seq<Step>)
    requires forall s | s in after && s.k == k :: s.Again? && (s.arguments.None? || s.arguments.value == text)
    ensures Arguments(before + [Done(k, via, text)] + after, k) == text
  {
    var trace := before + [Done(k, via, text)] + after;
    if after == [] {
      assert trace[|trace| - 1] == Done(k, via, text);
    } else {
      assert after[|after| - 1] in after;
      assert trace[..|trace| - 1] == before + [Done(k, via, text)] + after[..|after| - 1];
      DoneHolds(before, k, via, text, after[..|after| - 1]);
    }
  }

  /** An item that names a call by its call id and contradicts its index, name or item id is refused. */
  lemma ContradictionRefused(t: CallTable, made: seq<Call>, trace: seq<Step>, k: nat, outputIndex: int, item: CallItem)
    requires Holds(t, made, trace) && Distinct(made) && Bound(t) && k < |made| && k in Order(trace)
    requires item.callId == Some(made[k].callId)
    requires || (outputIndex >= 0 && outputIndex != made[k].outputIndex)
             || (item.name.Some? && made[k].name != "" && item.name.value != made[k].name)
             || (item.itemId.Some? && made[k].itemId != "" && item.itemId.value != made[k].itemId)
    ensures Upsert(t, outputIndex, item).None?
  {
    hide Order, Arguments;
    var keys, order := Keys(outputIndex, item.itemId, item.callId), Order(trace);
    var i :| 0 <= i < |order| && order[i] == k;
    assert Matches(t, i, keys);
    var found := Find(t, 0, keys).value;
    var j := order[found];
    if j < k { assert made[j].callId != made[k].callId; }
    if k < j { assert made[k].callId != made[j].callId; }
  }

  /** The keys of an item, or some of them. */
  predicate SomeOf(named: Keys, keys: Keys) {
    && (named.outputIndex == keys.outputIndex || named.outputIndex == -1)
    && (named.itemId == keys.itemId || named.itemId.None?) && (named.callId == keys.callId || named.callId.None?)
  }

  /** At least one key is given. */
  predicate Names(keys: Keys) {
    keys.outputIndex >= 0 || keys.itemId.Some? || (keys.callId.Some? && keys.callId.value != "")
  }

  /** An item that is taken leads, by any of its keys, to the call that it filled in or made. */
  lemma ItemIsFound(t: CallTable, outputIndex: int, item: CallItem, named: Keys)
    requires Bound(t) && Upsert(t, outputIndex, item).Some?
    requires SomeOf(named, Keys(outputIndex, item.itemId, item.callId)) && Names(named)
    ensures var found := Find(t, 0, Keys(outputIndex, item.itemId, item.callId));
            Find(Upsert(t, outputIndex, item).value, 0, named) == Some(found.GetOr(|t.bindings|))
  {
    var keys := Keys(outputIndex, item.itemId, item.callId);
    var u, i := Upsert(t, outputIndex, item).value, Find(t, 0, keys).GetOr(|t.bindings|);
    assert Matches(u, i, named);
    forall j: nat | j < i ensures !Matches(u, j, named) { assert !Matches(t, j, keys); }
  }

  /** And whatever led to a call before still leads to it, or to the one the item filled in. */
  lemma ItemKeepsNames(t: CallTable, outputIndex: int, item: CallItem, named: Keys)
    requires Bound(t) && Upsert(t, outputIndex, item).Some? && Find(t, 0, named).Some? && named.itemId != Some("")
    ensures var found, after := Find(t, 0, named).value, Find(Upsert(t, outputIndex, item).value, 0, named);
            && after.Some?
            && (after == Some(found)
                || (after == Find(t, 0, Keys(outputIndex, item.itemId, item.callId)) && after.value < found))
  {
    var u, found := Upsert(t, outputIndex, item).value, Find(t, 0, named).value;
    assert Matches(t, found, named);
    assert Matches(u, found, named);
    var after, place := Find(u, 0, named).value, Find(t, 0, Keys(outputIndex, item.itemId, item.callId));
    if after < found {
      assert !Matches(t, after, named) && Matches(u, after, named);
      assert place == Some(after);
    }
  }

  /** The table with the arguments of a call that nobody has announced. */
  function Waiting(t: CallTable, keys: Keys, text: string): CallTable {
    CallTable(t.calls + [ToolCall("", "", text)], t.bindings + [Binding(keys.outputIndex, |t.calls|, keys.itemId)])
  }

  lemma EarlyArgumentsWait(t: CallTable, keys: Keys, text: string, done: bool)
    requires Bound(t) && |t.calls| < INT_MAX && |t.bindings| < INT_MAX && Find(t, 0, keys).None? && keys.callId.None?
    ensures Bound(Waiting(t, keys, text)) && Argue(t, keys, text, done) == Some(Waiting(t, keys, text))
  {
    hide Find;
    assert "" + text == text;
    var calls := t.calls + [ToolCall("", "", "")];
    assert calls[|t.calls| := ToolCall("", "", text)] == t.calls + [ToolCall("", "", text)];
  }

  lemma WaitingIsFound(t: CallTable, keys: Keys, text: string, named: Keys)
    requires Bound(t) && Bound(Waiting(t, keys, text)) && Find(t, 0, named).None?
    requires || (keys.outputIndex >= 0 && named.outputIndex == keys.outputIndex)
             || (keys.itemId.Some? && named.itemId == keys.itemId)
    ensures Find(Waiting(t, keys, text), 0, named) == Some(|t.bindings|)
  {
    var a, n := Waiting(t, keys, text), |t.bindings|;
    assert Matches(a, n, named);
    forall i: nat | i < n ensures !Matches(a, i, named) {
      assert !Matches(t, i, named) && t.bindings[i] in t.bindings;
    }
    hide Matches;
  }

  /** Arguments that come before their call is announced, under its index or its item id, wait for it. */
  lemma EarlyArguments(t: CallTable, keys: Keys, text: string, done: bool, outputIndex: nat, item: CallItem)
    requires Bound(t) && |t.calls| < INT_MAX && |t.bindings| < INT_MAX && item.callId.Some?
    requires Find(t, 0, keys).None? && Find(t, 0, Keys(outputIndex, item.itemId, item.callId)).None?
    requires keys.callId.None? && (keys.outputIndex == outputIndex || (keys.outputIndex == -1 && keys.itemId.Some?))
    requires keys.itemId.Some? ==> keys.itemId == item.itemId
    ensures Argue(t, keys, text, done).Some?
    ensures var u := Upsert(Argue(t, keys, text, done).value, outputIndex, item);
            && u.Some?
            && u.value.calls == t.calls + [ToolCall(item.callId.value, item.name.GetOr(""), item.arguments.GetOr(text))]
  {
    EarlyArgumentsWait(t, keys, text, done);
    WaitingIsFound(t, keys, text, Keys(outputIndex, item.itemId, item.callId));
    hide Find, Argue, Bound;
    assert Waiting(t, keys, text).bindings[|t.bindings|] == Binding(keys.outputIndex, |t.calls|, keys.itemId);
  }
}
