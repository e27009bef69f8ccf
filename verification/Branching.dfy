/**
 Session branching: one live chain of messages plus a list of snapshot records, with
 fork, switch and the counting view. Everything is read from and saved to one stored
 row; a failed operation leaves the row alone. Times are the time stamps' places in
 their strcmp order; ids and readings of the clock come in as parameters.
 */
module Branching {
  import opened Wrappers
  import opened Messages

  type Time = int

  /** A snapshot record as stored; members may be missing from records this program did not write. */
  datatype Record = Record(id: Option<string>, createdAt: Option<Time>, messages: Option<Json>)

  /** A session row: the live chain, and metadata.branches. */
  datatype Stored = Stored(createdAt: Time, messages: Json, activeCreatedAt: Option<Time>, list: seq<Record>)

  datatype Chain = Chain(birth: Time, messages: seq<Message>)

  // ----- what a row holds -----

  /** A document the serialiser wrote. */
  predicate Saved(document: Json) {
    document.JArray? && document == ToJson(MessagesFromJson(document.items))
  }

  predicate ValidRecord(r: Record) {
    r.id.Some? && r.createdAt.Some? && r.messages.Some? && Saved(r.messages.value)
  }

  predicate Valid(row: Stored) {
    Saved(row.messages) && forall i | 0 <= i < |row.list| :: ValidRecord(row.list[i])
  }

  function Birth(row: Stored): Time {
    row.activeCreatedAt.GetOr(row.createdAt)
  }

  function LiveChain(row: Stored): Chain
    requires row.messages.JArray?
  {
    Chain(Birth(row), MessagesFromJson(row.messages.items))
  }

  function RecordChain(r: Record): Chain
    requires ValidRecord(r)
  {
    Chain(r.createdAt.value, MessagesFromJson(r.messages.value.items))
  }

  function RecordChains(list: seq<Record>): seq<Chain>
    requires forall i | 0 <= i < |list| :: ValidRecord(list[i])
  {
    seq(|list|, i requires 0 <= i < |list| => RecordChain(list[i]))
  }

  /** Every chain of the session, the live one first. */
  function AllChains(row: Stored): (chains: seq<Chain>)
    requires Valid(row)
    ensures |chains| == |row.list| + 1
  {
    [LiveChain(row)] + RecordChains(row.list)
  }

  lemma SavedIsStable(document: Json)
    requires Saved(document)
    ensures Stable(MessagesFromJson(document.items))
  {
    RoundTrip(MessagesFromJson(document.items));
  }

  lemma SavedByToJson(ms: seq<Message>)
    requires Stable(ms)
    ensures Saved(ToJson(ms)) && MessagesFromJson(ToJson(ms).items) == ms
  {
    RoundTrip(ms);
  }

  // ----- specification of switch and fork -----

  /** The snapshot of the live chain joins the list, record k leaves it and becomes live. */
  function SwitchTo(row: Stored, k: nat, recordId: string, now: Time): Stored
    requires row.messages.JArray? && k < |row.list|
    requires row.list[k].messages.Some? && row.list[k].messages.value.JArray?
  {
    var snapshot := Record(Some(recordId), Some(Birth(row)), Some(ToJson(MessagesFromJson(row.messages.items))));
    var target := row.list[k];
    Stored(row.createdAt, ToJson(MessagesFromJson(target.messages.value.items)),
           Some(target.createdAt.GetOr(now)), row.list[..k] + row.list[k + 1..] + [snapshot])
  }

  /** The group a fork at the message shares: its own if it has one, else the minted one. */
  function GroupOf(m: Message, minted: string): string {
    m.forkGroupId.GetOr(minted)
  }

  /** The pre-fork message keeps its identity and gains what it lacks. */
  function Stamp(m: Message, messageId: string, group: string): Message {
    m.(forkGroupId := Some(GroupOf(m, group)), id := Some(m.id.GetOr(messageId)))
  }

  /** The message the new chain ends in. */
  function ForkCopy(m: Message, messageId: string, group: string, content: Option<string>): Message {
    m.(id := Some(messageId), forkGroupId := Some(GroupOf(m, group)),
       content := if content.Some? then content else m.content)
  }

  datatype Ids = Ids(message: string, group: string, record: string)

  function ForkAt(row: Stored, fi: nat, ids: Ids, content: Option<string>, now: Time): Stored
    requires row.messages.JArray? && fi < |row.messages.items|
  {
    var live := MessagesFromJson(row.messages.items);
    var stamped := live[fi := Stamp(live[fi], ids.message, ids.group)];
    var snapshot := Record(Some(ids.record), Some(Birth(row)), Some(ToJson(stamped)));
    Stored(row.createdAt, ToJson(live[..fi] + [ForkCopy(live[fi], ids.message, ids.group, content)]),
           Some(now), row.list + [snapshot])
  }

  // ----- conservation -----

  /** What a switch does to a list of chains: number k + 1 comes to the front, the front goes last. */
  function Rotated<T>(chains: seq<T>, k: nat): seq<T>
    requires k + 1 < |chains|
  {
    seq(|chains|, i requires 0 <= i < |chains| =>
      if i == 0 then chains[k + 1]
      else if i <= k then chains[i]
      else if i + 1 < |chains| then chains[i + 1] else chains[0])
  }

  lemma RotatedIsPermutation<T>(chains: seq<T>, k: nat)
    requires k + 1 < |chains|
    ensures multiset(Rotated(chains, k)) == multiset(chains)
  {
    assert Rotated(chains, k) == [chains[k + 1]] + chains[1..k + 1] + chains[k + 2..] + [chains[0]];
    assert chains == [chains[0]] + chains[1..k + 1] + [chains[k + 1]] + chains[k + 2..];
  }

  /** The chain set aside reads back as it was live, the chain fetched is live as it was stored. */
  lemma SwitchEnds(row: Stored, k: nat, recordId: string, now: Time)
    requires Valid(row) && k < |row.list|
    ensures var after, n := SwitchTo(row, k, recordId, now), |row.list|;
            && Saved(after.messages) && LiveChain(after) == RecordChain(row.list[k])
            && ValidRecord(after.list[n - 1]) && RecordChain(after.list[n - 1]) == LiveChain(row)
  {
    hide ToJson, MessagesFromJson;
    SavedIsStable(row.messages);
    SavedByToJson(LiveChain(row).messages);
    SavedIsStable(row.list[k].messages.value);
    SavedByToJson(RecordChain(row.list[k]).messages);
  }

  /** A switch permutes the chains and brings the target to the front. */
  lemma SwitchConserves(row: Stored, k: nat, recordId: string, now: Time)
    requires Valid(row) && k < |row.list|
    ensures var after := SwitchTo(row, k, recordId, now);
            Valid(after) && AllChains(after) == Rotated(AllChains(row), k)
            && multiset(AllChains(after)) == multiset(AllChains(row))
  {
    hide ToJson, MessagesFromJson;
    SwitchEnds(row, k, recordId, now);
    var after := SwitchTo(row, k, recordId, now);
    RotatedLists(LiveChain(row), row.list, k, after.list[|row.list| - 1]);
    RotatedIsPermutation(AllChains(row), k);
  }

  /** The records after a switch, with the fetched chain in front of them. */
  lemma RotatedLists(live: Chain, list: seq<Record>, k: nat, snapshot: Record)
    requires k < |list| && (forall i | 0 <= i < |list| :: ValidRecord(list[i]))
    requires ValidRecord(snapshot) && RecordChain(snapshot) == live
    ensures var after := list[..k] + list[k + 1..] + [snapshot];
            && (forall i | 0 <= i < |after| :: ValidRecord(after[i]))
            && [RecordChain(list[k])] + RecordChains(after) == Rotated([live] + RecordChains(list), k)
  {
    hide ValidRecord, RecordChain;
    var after := list[..k] + list[k + 1..] + [snapshot];
    forall i | 0 <= i < |after|
      ensures after[i] == if i < k then list[i] else if i + 1 < |list| then list[i + 1] else snapshot
    {}
  }

  lemma StampedIsStable(live: seq<Message>, fi: nat, ids: Ids, content: Option<string>)
    requires Stable(live) && fi < |live|
    ensures Stable(live[fi := Stamp(live[fi], ids.message, ids.group)])
    ensures Stable(live[..fi] + [ForkCopy(live[fi], ids.message, ids.group, content)])
  {
  }

  /** A fork keeps every record, keeps the whole pre-fork chain up to the stamp on the fork message,
      and adds one chain: the part before the fork message and the edited copy. */
  lemma ForkConserves(row: Stored, fi: nat, ids: Ids, content: Option<string>, now: Time)
    requires Valid(row) && fi < |row.messages.items|
    ensures var after, live := ForkAt(row, fi, ids, content, now), LiveChain(row);
            && Valid(after)
            && AllChains(after) ==
                 [Chain(now, live.messages[..fi] + [ForkCopy(live.messages[fi], ids.message, ids.group, content)])]
                 + AllChains(row)[1..]
                 + [live.(messages := live.messages[fi := Stamp(live.messages[fi], ids.message, ids.group)])]
  {
    hide ToJson, MessagesFromJson;
    var live := LiveChain(row).messages;
    SavedIsStable(row.messages);
    StampedIsStable(live, fi, ids, content);
    SavedByToJson(live[fi := Stamp(live[fi], ids.message, ids.group)]);
    SavedByToJson(live[..fi] + [ForkCopy(live[fi], ids.message, ids.group, content)]);
  }

  // ----- whole runs -----

  datatype Op =
    | Switch(branchId: string, recordId: string, switchedAt: Time)
    | Fork(messageId: Option<string>, index: int, content: Option<string>, ids: Ids, now: Time)

  /** The first record of that id. */
  function FindRecord(list: seq<Record>, id: string): (k: Option<nat>)
    ensures k.Some? ==> k.value < |list| && list[k.value].id == Some(id)
    ensures k.Some? ==> forall i | 0 <= i < k.value :: list[i].id != Some(id)
    ensures k.None? ==> forall i | 0 <= i < |list| :: list[i].id != Some(id)
  {
    if list == [] then None
    else if list[0].id == Some(id) then Some(0)
    else match FindRecord(list[1..], id) case Some(k) => Some(k + 1) case None => None
  }

  function FindMessage(live: seq<Message>, id: string): (fi: Option<nat>)
    ensures fi.Some? ==> fi.value < |live| && live[fi.value].id == Some(id)
    ensures fi.Some? ==> forall i | 0 <= i < fi.value :: live[i].id != Some(id)
    ensures fi.None? ==> forall i | 0 <= i < |live| :: live[i].id != Some(id)
  {
    if live == [] then None
    else if live[0].id == Some(id) then Some(0)
    else match FindMessage(live[1..], id) case Some(k) => Some(k + 1) case None => None
  }

  /** The message of that id, else the raw index when it is in range. */
  function ForkIndex(live: seq<Message>, messageId: Option<string>, index: int): Option<nat> {
    if messageId.Some? && FindMessage(live, messageId.value).Some? then FindMessage(live, messageId.value)
    else if 0 <= index < |live| then Some(index)
    else None
  }

  /** Where a fork is: at the first message of the given id, whatever the index, or else at the index. */
  ghost predicate IsForkPlace(live: seq<Message>, messageId: Option<string>, index: int, fi: int) {
    && 0 <= fi < |live|
    && if messageId.Some? && exists k :: 0 <= k < |live| && live[k].id == messageId then
         live[fi].id == messageId && forall k | 0 <= k < fi :: live[k].id != messageId
       else
         fi == index
  }

  lemma ForkIndexIsPlace(live: seq<Message>, messageId: Option<string>, index: int)
    ensures var fi := ForkIndex(live, messageId, index);
            if fi.Some? then forall k :: IsForkPlace(live, messageId, index, k) <==> k == fi.value
            else forall k :: !IsForkPlace(live, messageId, index, k)
  {
  }

  /** The record a switch would fetch: it exists, holds an array, and is not what is live already. */
  function SwitchTarget(row: Stored, branchId: string): Option<nat>
    requires row.messages.JArray?
  {
    match FindRecord(row.list, branchId)
    case Some(k) =>
      var snapshot := row.list[k].messages;
      if snapshot.None? || !snapshot.value.JArray? then None
      else if snapshot.value == ToJson(MessagesFromJson(row.messages.items)) then None
      else Some(k)
    case None => None
  }

  predicate Forks(row: Stored, op: Op)
    requires row.messages.JArray?
  {
    op.Fork? && ForkIndex(MessagesFromJson(row.messages.items), op.messageId, op.index).Some?
  }

  /** One operation that saves; refused operations and the switch to what is live change nothing. */
  function Step(row: Stored, op: Op): Stored
    requires row.messages.JArray?
  {
    match op
    case Switch(branchId, recordId, now) =>
      var k := SwitchTarget(row, branchId);
      if k.Some? then SwitchTo(row, k.value, recordId, now) else row
    case Fork(messageId, index, content, ids, now) =>
      var fi := ForkIndex(MessagesFromJson(row.messages.items), messageId, index);
      if fi.Some? then ForkAt(row, fi.value, ids, content, now) else row
  }

  function Run(row: Stored, ops: seq<Op>): Stored
    requires row.messages.JArray?
    decreases |ops|
  {
    if ops == [] then row else Run(Step(row, ops[0]), ops[1..])
  }

  function ForksIn(row: Stored, ops: seq<Op>): nat
    requires row.messages.JArray?
    decreases |ops|
  {
    if ops == [] then 0 else (if Forks(row, ops[0]) then 1 else 0) + ForksIn(Step(row, ops[0]), ops[1..])
  }

  /** A message without the identity a fork may stamp on it. */
  function Unstamped(m: Message): Message {
    m.(id := None, forkGroupId := None)
  }

  function Story(c: Chain): Chain {
    c.(messages := seq(|c.messages|, i requires 0 <= i < |c.messages| => Unstamped(c.messages[i])))
  }

  function Stories(chains: seq<Chain>): seq<Chain> {
    seq(|chains|, i requires 0 <= i < |chains| => Story(chains[i]))
  }

  lemma StoriesPermute(a: seq<Chain>, k: nat)
    requires k + 1 < |a|
    ensures multiset(Stories(Rotated(a, k))) == multiset(Stories(a))
  {
    RotatedIsPermutation(Stories(a), k);
    assert Stories(Rotated(a, k)) == Rotated(Stories(a), k);
  }

  lemma StoriesGrow(before: seq<Chain>, new': Chain, kept: Chain)
    requires |before| > 0 && Story(kept) == Story(before[0])
    ensures multiset(Stories([new'] + before[1..] + [kept])) == multiset(Stories(before)) + multiset{Story(new')}
  {
    assert Stories([new'] + before[1..] + [kept]) == [Story(new')] + Stories(before)[1..] + [Stories(before)[0]];
    assert Stories(before) == [Stories(before)[0]] + Stories(before)[1..];
  }

  lemma SwitchKeepsStories(row: Stored, k: nat, recordId: string, now: Time)
    requires Valid(row) && k < |row.list|
    ensures var after := SwitchTo(row, k, recordId, now);
            Valid(after) && multiset(Stories(AllChains(after))) == multiset(Stories(AllChains(row)))
            && |AllChains(after)| == |AllChains(row)|
  {
    SwitchConserves(row, k, recordId, now);
    hide Saved, SwitchTo;
    StoriesPermute(AllChains(row), k);
  }

  lemma ForkKeepsStories(row: Stored, fi: nat, ids: Ids, content: Option<string>, now: Time)
    requires Valid(row) && fi < |row.messages.items|
    ensures var after := ForkAt(row, fi, ids, content, now);
            Valid(after) && multiset(Stories(AllChains(row))) <= multiset(Stories(AllChains(after)))
            && |AllChains(after)| == |AllChains(row)| + 1
  {
    var live := LiveChain(row);
    var new' := Chain(now, live.messages[..fi] + [ForkCopy(live.messages[fi], ids.message, ids.group, content)]);
    var kept := live.(messages := live.messages[fi := Stamp(live.messages[fi], ids.message, ids.group)]);
    assert Story(kept) == Story(live);
    ForkConserves(row, fi, ids, content, now);
    hide Saved, ForkAt, ForkCopy, Stamp, Story;
    StoriesGrow(AllChains(row), new', kept);
  }

  /** One operation loses no chain, and only a fork adds one. */
  lemma StepKeepsStories(row: Stored, op: Op)
    requires Valid(row)
    ensures var after := Step(row, op);
            && Valid(after)
            && multiset(Stories(AllChains(row))) <= multiset(Stories(AllChains(after)))
            && |AllChains(after)| == |AllChains(row)| + if Forks(row, op) then 1 else 0
  {
    hide SwitchTo, ForkAt, Stories;
    match op {
      case Switch(branchId, recordId, now) =>
        var k := SwitchTarget(row, branchId);
        if k.Some? {
          SwitchKeepsStories(row, k.value, recordId, now);
        }
      case Fork(messageId, index, content, ids, now) =>
        var fi := ForkIndex(MessagesFromJson(row.messages.items), messageId, index);
        if fi.Some? {
          ForkKeepsStories(row, fi.value, ids, content, now);
        }
    }
  }

  // ----- what a run may change about a chain -----

  /** A stamp only fills an id or group that was absent. */
  predicate OnlyStamped(before: Message, after: Message) {
    && (before.id.Some? ==> after.id == before.id)
    && (before.forkGroupId.Some? ==> after.forkGroupId == before.forkGroupId)
    && Unstamped(after) == Unstamped(before)
  }

  predicate OnlyStampedChain(before: Chain, after: Chain) {
    && before.birth == after.birth && |before.messages| == |after.messages|
    && forall i | 0 <= i < |before.messages| :: OnlyStamped(before.messages[i], after.messages[i])
  }

  /** Chain i is still there, at its own place at[i], with nothing but stamps added. */
  predicate Kept(before: seq<Chain>, after: seq<Chain>, at: seq<nat>) {
    && |at| == |before|
    && (forall i | 0 <= i < |at| :: at[i] < |after| && OnlyStampedChain(before[i], after[at[i]]))
    && forall i, j | 0 <= i < j < |at| :: at[i] != at[j]
  }

  lemma KeptAll(chains: seq<Chain>)
    ensures Kept(chains, chains, seq(|chains|, i => i))
  {
  }

  lemma KeptTwice(a: seq<Chain>, b: seq<Chain>, c: seq<Chain>, first: seq<nat>, further: seq<nat>)
    returns (at: seq<nat>)
    requires Kept(a, b, first) && Kept(b, c, further)
    ensures Kept(a, c, at)
  {
    hide OnlyStampedChain;
    at := seq(|first|, i requires 0 <= i < |first| => further[first[i]]);
    forall i | 0 <= i < |a| ensures OnlyStampedChain(a[i], c[at[i]]) {
      StampedTwice(a[i], b[first[i]], c[at[i]]);
    }
    forall i, j | 0 <= i < j < |a| ensures at[i] != at[j] {
      assert first[i] != first[j];
    }
  }

  lemma StampedTwice(a: Chain, b: Chain, c: Chain)
    requires OnlyStampedChain(a, b) && OnlyStampedChain(b, c)
    ensures OnlyStampedChain(a, c)
  {
    hide Unstamped;
  }

  /** Where each chain goes when number k + 1 comes to the front and the front goes last. */
  function RotatedPlaces(n: nat, k: nat): seq<nat>
    requires k + 1 < n
  {
    seq(n, i requires 0 <= i < n => if i == 0 then n - 1 else if i <= k then i else if i == k + 1 then 0 else i - 1)
  }

  lemma SwitchKeeps(row: Stored, k: nat, recordId: string, now: Time)
    requires Valid(row) && k < |row.list|
    ensures var after := SwitchTo(row, k, recordId, now);
            Valid(after) && Kept(AllChains(row), AllChains(after), RotatedPlaces(|AllChains(row)|, k))
  {
    SwitchConserves(row, k, recordId, now);
    hide AllChains, SwitchTo, Valid;
    RotatedKeeps(AllChains(row), k);
  }

  lemma RotatedKeeps(chains: seq<Chain>, k: nat)
    requires k + 1 < |chains|
    ensures Kept(chains, Rotated(chains, k), RotatedPlaces(|chains|, k))
  {
    hide OnlyStamped;
    forall c: Chain ensures OnlyStampedChain(c, c) { SameChain(c); }
    forall i | 0 <= i < |chains| ensures Rotated(chains, k)[RotatedPlaces(|chains|, k)[i]] == chains[i] {}
  }

  lemma SameChain(c: Chain)
    ensures OnlyStampedChain(c, c)
  {
  }

  lemma GrownKeeps(before: seq<Chain>, new': Chain, kept: Chain)
    requires |before| > 0 && OnlyStampedChain(before[0], kept)
    ensures Kept(before, [new'] + before[1..] + [kept], seq(|before|, i => if i == 0 then |before| else i))
  {
    hide OnlyStampedChain;
    forall c: Chain ensures OnlyStampedChain(c, c) { SameChain(c); }
  }

  lemma ForkKeeps(row: Stored, fi: nat, ids: Ids, content: Option<string>, now: Time)
    requires Valid(row) && fi < |row.messages.items|
    ensures var after, n := ForkAt(row, fi, ids, content, now), |AllChains(row)|;
            Valid(after) && Kept(AllChains(row), AllChains(after), seq(n, i => if i == 0 then n else i))
  {
    ForkConserves(row, fi, ids, content, now);
    var live := LiveChain(row);
    var kept := live.(messages := live.messages[fi := Stamp(live.messages[fi], ids.message, ids.group)]);
    assert OnlyStampedChain(live, kept);
    hide AllChains, ForkAt, Stamp, ForkCopy, OnlyStampedChain;
    var new' := Chain(now, live.messages[..fi] + [ForkCopy(live.messages[fi], ids.message, ids.group, content)]);
    GrownKeeps(AllChains(row), new', kept);
  }

  lemma StepKeeps(row: Stored, op: Op) returns (at: seq<nat>)
    requires Valid(row)
    ensures Valid(Step(row, op)) && Kept(AllChains(row), AllChains(Step(row, op)), at)
  {
    hide SwitchTo, ForkAt, Kept, ToJson, MessagesFromJson, AllChains;
    KeptAll(AllChains(row));
    at := seq(|AllChains(row)|, i => i);
    match op {
      case Switch(branchId, recordId, now) =>
        var k := SwitchTarget(row, branchId);
        if k.Some? {
          SwitchKeeps(row, k.value, recordId, now);
          at := RotatedPlaces(|AllChains(row)|, k.value);
        }
      case Fork(messageId, index, content, ids, now) =>
        var fi := ForkIndex(MessagesFromJson(row.messages.items), messageId, index);
        if fi.Some? {
          ForkKeeps(row, fi.value, ids, content, now);
          at := seq(|AllChains(row)|, i => if i == 0 then |AllChains(row)| else i);
        }
    }
  }

  /** Over every run of forks and switches each chain stays, at a place of its own, with the birth and messages it had;
      all a run adds to a message is an id or group where there was none. */
  lemma {:induction false} NoChainIsChanged(row: Stored, ops: seq<Op>)
    requires Valid(row)
    ensures Valid(Run(row, ops)) && exists at :: Kept(AllChains(row), AllChains(Run(row, ops)), at)
    decreases |ops|
  {
    if ops == [] {
      KeptAll(AllChains(row));
    } else {
      hide Step, Kept, AllChains, Saved, ValidRecord;
      var at := StepKeeps(row, ops[0]);
      var next := Step(row, ops[0]);
      NoChainIsChanged(next, ops[1..]);
      var further :| Kept(AllChains(next), AllChains(Run(next, ops[1..])), further);
      var all := KeptTwice(AllChains(row), AllChains(next), AllChains(Run(next, ops[1..])), at, further);
      assert Kept(AllChains(row), AllChains(Run(row, ops)), all);
    }
  }

  /** No chain is ever lost: over every run of forks and switches the birth times and messages of all
      chains stay, up to the stamps forks put on messages, and each fork adds exactly one chain. */
  lemma {:induction false} NoChainIsLost(row: Stored, ops: seq<Op>)
    requires Valid(row)
    ensures var after := Run(row, ops);
            && Valid(after)
            && multiset(Stories(AllChains(row))) <= multiset(Stories(AllChains(after)))
            && |AllChains(after)| == |AllChains(row)| + ForksIn(row, ops)
    decreases |ops|
  {
    if ops != [] {
      StepKeepsStories(row, ops[0]);
      NoChainIsLost(Step(row, ops[0]), ops[1..]);
    }
  }

  /** Switching away and then to the last record puts the same chain back live. */
  lemma SwitchBackAt(row: Stored, k: nat, recordId: string, now: Time, recordId': string, now': Time)
    requires Valid(row) && k < |row.list|
    ensures var away := SwitchTo(row, k, recordId, now);
            && Valid(away) && |away.list| == |row.list|
            && LiveChain(SwitchTo(away, |row.list| - 1, recordId', now')) == LiveChain(row)
  {
    SwitchConserves(row, k, recordId, now);
    var away, n := SwitchTo(row, k, recordId, now), |row.list|;
    SwitchConserves(away, n - 1, recordId', now');
    hide SwitchTo, Saved, LiveChain;
    assert AllChains(SwitchTo(away, n - 1, recordId', now'))[0] == AllChains(away)[n] == AllChains(row)[0];
  }

  /** A record of a new id is found where the switch has put it, and it holds what is not live. */
  lemma SetAside(row: Stored, branchId: string, recordId: string, now: Time)
    requires Valid(row) && SwitchTarget(row, branchId).Some? && FindRecord(row.list, recordId).None?
    ensures var away := SwitchTo(row, SwitchTarget(row, branchId).value, recordId, now);
            && away.messages.JArray? && |away.list| == |row.list|
            && SwitchTarget(away, recordId) == Some(|row.list| - 1)
  {
    var k, n := SwitchTarget(row, branchId).value, |row.list|;
    SwitchEnds(row, k, recordId, now);
    hide ToJson, MessagesFromJson;
    var away := SwitchTo(row, k, recordId, now);
    assert away.list[n - 1].id == Some(recordId);
    assert forall i | 0 <= i < n - 1 :: away.list[i] in row.list;
    assert FindRecord(away.list, recordId) == Some(n - 1);
  }

  /** Switching away and then to the record that was set aside, by its new id, puts the same chain back live. */
  lemma SwitchBack(row: Stored, branchId: string, recordId: string, now: Time, recordId': string, now': Time)
    requires Valid(row) && SwitchTarget(row, branchId).Some? && FindRecord(row.list, recordId).None?
    ensures var away := Step(row, Switch(branchId, recordId, now));
            && Valid(away)
            && var back := Step(away, Switch(recordId, recordId', now'));
            && Valid(back) && LiveChain(back) == LiveChain(row)
            && multiset(AllChains(back)) == multiset(AllChains(row))
  {
    var k := SwitchTarget(row, branchId).value;
    SetAside(row, branchId, recordId, now);
    SwitchBackAt(row, k, recordId, now, recordId', now');
    SwitchConserves(row, k, recordId, now);
    SwitchConserves(SwitchTo(row, k, recordId, now), |row.list| - 1, recordId', now');
    hide SwitchTo, Saved, LiveChain, SwitchTarget;
  }
}
