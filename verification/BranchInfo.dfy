/**
 The counting view of branches: for each fork group on the live chain, how many chains
 carry the group and which place the live one takes among them by birth.
 */
module BranchInfo {
  import opened Wrappers
  import opened Messages
  import opened Branching

  const MAX_LISTED := 64

  // ----- what the view is about: chains of a group -----

  predicate Carries(c: Chain, group: string) {
    exists i | 0 <= i < |c.messages| :: c.messages[i].forkGroupId == Some(group)
  }

  /** How many of the chains carry the group. */
  function Count(chains: seq<Chain>, group: string): nat {
    if chains == [] then 0 else (if Carries(chains[0], group) then 1 else 0) + Count(chains[1..], group)
  }

  /** How many of them were born before t. */
  function Older(chains: seq<Chain>, group: string, t: Time): nat {
    if chains == [] then 0
    else (if Carries(chains[0], group) && chains[0].birth < t then 1 else 0) + Older(chains[1..], group, t)
  }

  lemma {:induction false} CountConcat(a: seq<Chain>, b: seq<Chain>, group: string, t: Time)
    ensures Count(a + b, group) == Count(a, group) + Count(b, group)
    ensures Older(a + b, group, t) == Older(a, group, t) + Older(b, group, t)
  {
    if a == [] {
      assert a + b == b;
    } else {
      assert (a + b)[1..] == a[1..] + b;
      CountConcat(a[1..], b, group, t);
    }
  }

  lemma CountCons(c: Chain, chains: seq<Chain>, group: string, t: Time)
    ensures Count([c] + chains, group) == (if Carries(c, group) then 1 else 0) + Count(chains, group)
    ensures Older([c] + chains, group, t) ==
        (if Carries(c, group) && c.birth < t then 1 else 0) + Older(chains, group, t)
  {
    hide Carries;
    assert ([c] + chains)[1..] == chains;
  }

  lemma CountRotated(chains: seq<Chain>, k: nat, group: string, t: Time)
    requires k + 1 < |chains|
    ensures Count(Rotated(chains, k), group) == Count(chains, group)
    ensures Older(Rotated(chains, k), group, t) == Older(chains, group, t)
  {
    var a, b, c, d := [chains[0]], chains[1..k + 1], [chains[k + 1]], chains[k + 2..];
    assert chains == a + (b + (c + d)) && Rotated(chains, k) == c + (b + (d + a));
    CountConcat(a, b + (c + d), group, t); CountConcat(b, c + d, group, t); CountConcat(c, d, group, t);
    CountConcat(c, b + (d + a), group, t); CountConcat(b, d + a, group, t); CountConcat(d, a, group, t);
  }

  lemma {:induction false} OlderThanMember(chains: seq<Chain>, group: string, i: nat, t: Time)
    requires i < |chains| && Carries(chains[i], group)
    ensures chains[i].birth < t ==> Older(chains, group, chains[i].birth) < Older(chains, group, t)
    ensures Older(chains, group, chains[i].birth) < Count(chains, group)
  {
    OlderMonotone(chains[1..], group, chains[0].birth, t);
    if i > 0 {
      OlderThanMember(chains[1..], group, i - 1, t);
    }
  }

  lemma OlderMonotone(chains: seq<Chain>, group: string, s: Time, t: Time)
    ensures s <= t ==> Older(chains, group, s) <= Older(chains, group, t)
    ensures Older(chains, group, s) <= Count(chains, group)
  {
  }

  // ----- the view as computed from the records -----

  /** A record hits when some stored message carries the group. */
  predicate RecordHits(r: Record, group: string) {
    r.messages.Some? && r.messages.value.JArray?
    && exists j | 0 <= j < |r.messages.value.items| :: TextField(r.messages.value.items[j], ForkGroupId) == Some(group)
  }

  /** The hits, in list order. */
  function Hits(list: seq<Record>, group: string): seq<Record> {
    if list == [] then [] else (if RecordHits(list[0], group) then [list[0]] else []) + Hits(list[1..], group)
  }

  function BornBefore(hits: seq<Record>, t: Time): nat {
    if hits == [] then 0
    else (if hits[0].createdAt.Some? && hits[0].createdAt.value < t then 1 else 0) + BornBefore(hits[1..], t)
  }

  lemma {:induction false} HitsAppend(list: seq<Record>, i: nat, group: string)
    requires i < |list|
    ensures Hits(list[..i + 1], group) == Hits(list[..i], group) + if RecordHits(list[i], group) then [list[i]] else []
  {
    if i > 0 {
      assert list[..i + 1][1..] == list[1..][..i] && list[..i][1..] == list[1..][..i - 1];
      HitsAppend(list[1..], i - 1, group);
    }
  }

  lemma {:induction false} BornBeforeAppend(hits: seq<Record>, k: nat, t: Time)
    requires k < |hits|
    ensures BornBefore(hits[..k + 1], t) ==
              BornBefore(hits[..k], t) + if hits[k].createdAt.Some? && hits[k].createdAt.value < t then 1 else 0
  {
    if k > 0 {
      assert hits[..k + 1][1..] == hits[1..][..k] && hits[..k][1..] == hits[1..][..k - 1];
      BornBeforeAppend(hits[1..], k - 1, t);
    }
  }

  /** branch_group_chain_count */
  method GroupChainCount(list: seq<Record>, group: string, createdAts: array<Option<Time>>, ids: array<Option<string>>)
    returns (count: nat)
    requires createdAts as object != ids as object && createdAts.Length == MAX_LISTED && ids.Length == MAX_LISTED
    modifies createdAts, ids
    ensures var hits := Hits(list, group);
            && count == 1 + (if |hits| < MAX_LISTED then |hits| else MAX_LISTED)
            && forall k | 0 <= k < count - 1 :: createdAts[k] == hits[k].createdAt && ids[k] == hits[k].id
  {
    count := 1;
    var created, i := 0, 0;
    ghost var hits := Hits(list, group);
    while i < |list| && created < MAX_LISTED
      invariant 0 <= i <= |list| && count == 1 + created && created <= MAX_LISTED
      invariant created == |Hits(list[..i], group)|
      invariant Hits(list[..i], group) <= hits
      invariant forall k | 0 <= k < created :: createdAts[k] == hits[k].createdAt && ids[k] == hits[k].id
      decreases |list| - i
    {
      var hit := RecordHits(list[i], group);
      HitsAppend(list, i, group);
      HitsPrefix(list, i + 1, group);
      if hit {
        count := count + 1;
        createdAts[created] := list[i].createdAt;
        ids[created] := list[i].id;
        created := created + 1;
      }
      i := i + 1;
    }
    assert i == |list| ==> list[..i] == list;
  }

  lemma {:induction false} HitsPrefix(list: seq<Record>, i: nat, group: string)
    requires i <= |list|
    ensures Hits(list[..i], group) <= Hits(list, group)
  {
    if i > 0 {
      assert list[..i][1..] == list[1..][..i - 1];
      HitsPrefix(list[1..], i - 1, group);
    }
  }

  datatype Entry = Entry(messageId: string, count: nat, active: nat, branchIds: seq<string>)

  function Listed(hits: seq<Record>): seq<Record> {
    if |hits| < MAX_LISTED then hits else hits[..MAX_LISTED]
  }

  function PresentIds(hits: seq<Record>): seq<string> {
    if hits == [] then []
    else (if hits[0].id.Some? then [hits[0].id.value] else []) + PresentIds(hits[1..])
  }

  /** The entry the view shows for one message of the live chain that carries a group. */
  function EntryFor(row: Stored, m: Message, group: string): Entry {
    var listed := Listed(Hits(row.list, group));
    Entry(m.id.GetOr(""), 1 + |listed|, 1 + BornBefore(listed, Birth(row)), PresentIds(listed))
  }

  function Entries(row: Stored, live: seq<Message>): seq<Entry> {
    if live == [] then []
    else (if live[0].forkGroupId.Some? then [EntryFor(row, live[0], live[0].forkGroupId.value)] else [])
         + Entries(row, live[1..])
  }

  // ----- the view counts the chains -----

  lemma HitIffCarries(r: Record, group: string)
    requires ValidRecord(r)
    ensures RecordHits(r, group) <==> Carries(RecordChain(r), group)
  {
    var c := RecordChain(r);
    assert forall j | 0 <= j < |c.messages| ::
        c.messages[j].forkGroupId == TextField(r.messages.value.items[j], ForkGroupId);
  }

  lemma HitsUnfold(list: seq<Record>, group: string, t: Time)
    requires list != []
    ensures var hit, r := if RecordHits(list[0], group) then 1 else 0, list[0];
            && |Hits(list, group)| == hit + |Hits(list[1..], group)|
            && BornBefore(Hits(list, group), t) ==
                 (if hit == 1 && r.createdAt.Some? && r.createdAt.value < t then 1 else 0) +
                   BornBefore(Hits(list[1..], group), t)
  {
    hide RecordHits;
    if RecordHits(list[0], group) {
      assert Hits(list, group)[1..] == Hits(list[1..], group);
    } else {
      assert Hits(list, group) == Hits(list[1..], group);
    }
  }

  lemma {:induction false} HitsAreCarriers(list: seq<Record>, group: string, t: Time)
    requires forall i | 0 <= i < |list| :: ValidRecord(list[i])
    ensures |Hits(list, group)| == Count(RecordChains(list), group)
    ensures BornBefore(Hits(list, group), t) == Older(RecordChains(list), group, t)
  {
    if list != [] {
      hide RecordHits, Carries, Hits, BornBefore, Count, Older, ToJson, MessagesFromJson;
      HitIffCarries(list[0], group);
      HitsUnfold(list, group, t);
      HitsAreCarriers(list[1..], group, t);
      CountCons(RecordChain(list[0]), RecordChains(list[1..]), group, t);
      assert RecordChains(list) == [RecordChain(list[0])] + RecordChains(list[1..]);
    }
  }

  /** For a group on the live chain that at most 64 records carry, the entry shows how many chains of the
      session carry it and the live chain's rank among them by birth, a number from 1 to the count. */
  lemma EntryCountsChains(row: Stored, m: Message, group: string)
    requires Valid(row) && m in LiveChain(row).messages && m.forkGroupId == Some(group)
    requires |Hits(row.list, group)| <= MAX_LISTED
    ensures var e, chains := EntryFor(row, m, group), AllChains(row);
            && e.count == Count(chains, group)
            && e.active == 1 + Older(chains, group, Birth(row))
            && 1 <= e.active <= e.count
  {
    hide ToJson, MessagesFromJson, RecordHits, Hits, Carries;
    var hits, chains := Hits(row.list, group), AllChains(row);
    assert Listed(hits) == hits;
    HitsAreCarriers(row.list, group, Birth(row));
    assert chains[0] == LiveChain(row) && chains[1..] == RecordChains(row.list);
    ChainCarries(chains, 0, m, group);
    OlderThanMember(chains, group, 0, Birth(row));
  }

  /** The ids of the records whose chains carry the group, in list order. */
  function CarryingIds(list: seq<Record>, group: string): seq<string>
    requires forall i | 0 <= i < |list| :: ValidRecord(list[i])
  {
    if list == [] then []
    else (if Carries(RecordChain(list[0]), group) then [list[0].id.value] else []) + CarryingIds(list[1..], group)
  }

  function FirstOf(ids: seq<string>, n: nat): seq<string> {
    if |ids| <= n then ids else ids[..n]
  }

  lemma HitsUnfoldIds(list: seq<Record>, group: string)
    requires list != []
    ensures Hits(list, group) == (if RecordHits(list[0], group) then [list[0]] else []) + Hits(list[1..], group)
  {
  }

  lemma {:induction false} PresentConcat(a: seq<Record>, b: seq<Record>)
    ensures PresentIds(a + b) == PresentIds(a) + PresentIds(b)
  {
    if a == [] {
      assert a + b == b;
    } else {
      assert (a + b)[1..] == a[1..] + b;
      PresentConcat(a[1..], b);
    }
  }

  lemma {:induction false} HitsHaveIds(list: seq<Record>, group: string)
    requires forall i | 0 <= i < |list| :: ValidRecord(list[i])
    ensures PresentIds(Hits(list, group)) == CarryingIds(list, group)
    ensures forall r | r in Hits(list, group) :: r.id.Some?
  {
    if list != [] {
      hide RecordHits, Carries, RecordChain, Hits, ToJson, MessagesFromJson;
      HitIffCarries(list[0], group);
      HitsUnfoldIds(list, group);
      HitsHaveIds(list[1..], group);
      PresentConcat(if RecordHits(list[0], group) then [list[0]] else [], Hits(list[1..], group));
      assert [list[0]][1..] == [];
    } else {
      assert Hits(list, group) == [];
    }
  }

  lemma {:induction false} FirstIds(hits: seq<Record>, n: nat)
    requires forall r | r in hits :: r.id.Some?
    ensures |PresentIds(hits)| == |hits|
    ensures n <= |hits| ==> PresentIds(hits[..n]) == PresentIds(hits)[..n]
  {
    if hits != [] {
      assert hits[0] in hits;
      if n > 0 && n <= |hits| {
        assert hits[..n][1..] == hits[1..][..n - 1];
        FirstIds(hits[1..], n - 1);
      } else {
        FirstIds(hits[1..], 0);
      }
    }
  }

  /** The entry of a message names it, and lists the ids of exactly the records that carry the group, in list order
      and up to 64; the count is one more than that. */
  lemma EntryListsCarriers(row: Stored, m: Message, group: string)
    requires Valid(row)
    ensures var e, ids := EntryFor(row, m, group), CarryingIds(row.list, group);
            && e.messageId == (if m.id.Some? then m.id.value else "")
            && e.branchIds == FirstOf(ids, 64) && e.count == 1 + |FirstOf(ids, 64)|
  {
    hide Hits, BornBefore, PresentIds, CarryingIds, ToJson, MessagesFromJson;
    HitsHaveIds(row.list, group);
    FirstIds(Hits(row.list, group), 64);
  }

  /** A switch finds every id that is listed, and what it finds carries the group if no two records share an id. */
  lemma {:induction false} ListedIsFound(list: seq<Record>, group: string, id: string)
    requires (forall i | 0 <= i < |list| :: ValidRecord(list[i])) && id in CarryingIds(list, group)
    ensures FindRecord(list, id).Some?
    ensures (forall i, j | 0 <= i < j < |list| :: list[i].id != list[j].id) ==>
              Carries(RecordChain(list[FindRecord(list, id).value]), group)
  {
    hide Carries, RecordChain, Saved;
    assert list[0].id.Some?;
    if list[0].id == Some(id) {
      if !Carries(RecordChain(list[0]), group) {
        ListedIsFound(list[1..], group, id);
        assert list[1..][FindRecord(list[1..], id).value].id == Some(id);
      }
    } else {
      ListedIsFound(list[1..], group, id);
    }
  }

  /** A switch that takes place keeps the count of every group and makes the rank the fetched chain's. */
  lemma CountAfterSwitch(row: Stored, k: nat, recordId: string, now: Time, group: string)
    requires Valid(row) && k < |row.list|
    ensures var after := SwitchTo(row, k, recordId, now);
            && Valid(after)
            && Count(AllChains(after), group) == Count(AllChains(row), group)
            && Birth(after) == RecordChain(row.list[k]).birth
            && Older(AllChains(after), group, Birth(after)) == Older(AllChains(row), group, Birth(after))
  {
    SwitchConserves(row, k, recordId, now);
    CountRotated(AllChains(row), k, group, row.list[k].createdAt.value);
  }

  /** Two chains of the group with different births never show the same rank. */
  lemma RanksAreDistinct(chains: seq<Chain>, group: string, i: nat, j: nat)
    requires i < |chains| && j < |chains| && Carries(chains[i], group) && Carries(chains[j], group)
    requires chains[i].birth != chains[j].birth
    ensures Older(chains, group, chains[i].birth) != Older(chains, group, chains[j].birth)
  {
    OlderThanMember(chains, group, i, chains[j].birth);
    OlderThanMember(chains, group, j, chains[i].birth);
  }

  /** Forking at a message that carries the group adds one chain to it; forking at any message opens
      a group of exactly the two chains when its minted name is new. */
  lemma CountAfterFork(row: Stored, fi: nat, ids: Ids, content: Option<string>, now: Time, group: string)
    requires Valid(row) && fi < |row.messages.items|
    requires GroupOf(LiveChain(row).messages[fi], ids.group) == group
    ensures var after := ForkAt(row, fi, ids, content, now);
            && Valid(after)
            && (LiveChain(row).messages[fi].forkGroupId.Some? ==>
                 Count(AllChains(after), group) == Count(AllChains(row), group) + 1)
            && (Count(AllChains(row), group) == 0 ==> Count(AllChains(after), group) == 2)
  {
    assert |LiveChain(row).messages| == |row.messages.items|;
    hide ToJson, MessagesFromJson, Count, Older, Carries, Stamp, ForkCopy;
    var live := LiveChain(row);
    ForkConserves(row, fi, ids, content, now);
    var m := live.messages[fi];
    var copy, stamped := ForkCopy(m, ids.message, ids.group, content), Stamp(m, ids.message, ids.group);
    var new', kept := Chain(now, live.messages[..fi] + [copy]), live.(messages := live.messages[fi := stamped]);
    InTheGroup(m, ids, content);
    assert new'.messages[fi] == copy && kept.messages[fi] == stamped;
    ChainCarries([new', kept, live], 0, copy, group);
    ChainCarries([new', kept, live], 1, stamped, group);
    if m.forkGroupId.Some? { ChainCarries([new', kept, live], 2, m, group); }
    CountGrown(AllChains(row), new', kept, group);
  }

  lemma InTheGroup(m: Message, ids: Ids, content: Option<string>)
    ensures ForkCopy(m, ids.message, ids.group, content).forkGroupId == Some(GroupOf(m, ids.group))
    ensures Stamp(m, ids.message, ids.group).forkGroupId == Some(GroupOf(m, ids.group))
  {
  }

  lemma CountGrown(before: seq<Chain>, new': Chain, kept: Chain, group: string)
    requires before != [] && Carries(new', group) && Carries(kept, group)
    ensures Count([new'] + before[1..] + [kept], group) ==
              Count(before, group) + if Carries(before[0], group) then 1 else 2
  {
    hide Carries;
    CountConcat([new'] + before[1..], [kept], group, 0);
    CountConcat([new'], before[1..], group, 0);
  }

  // ----- the view after an operation -----

  /** With a chain of the group live, the records carry it in all the chains of the group but one. */
  lemma HitsOfLive(row: Stored, m: Message, group: string)
    requires Valid(row) && m in LiveChain(row).messages && m.forkGroupId == Some(group)
    ensures Count(AllChains(row), group) == 1 + |Hits(row.list, group)|
  {
    hide RecordHits, Hits, Carries, MessagesFromJson, ToJson;
    HitsAreCarriers(row.list, group, 0);
    assert AllChains(row)[1..] == RecordChains(row.list);
    ChainCarries(AllChains(row), 0, m, group);
  }

  /** A switch that takes place shows the same count, and another rank exactly if the births differ. */
  lemma ViewAfterSwitch(row: Stored, k: nat, recordId: string, now: Time, m: Message, m': Message, group: string)
    requires Valid(row) && k < |row.list| && |Hits(row.list, group)| <= MAX_LISTED
    requires m in LiveChain(row).messages && m.forkGroupId == Some(group)
    requires m' in RecordChain(row.list[k]).messages && m'.forkGroupId == Some(group)
    ensures var before, after := EntryFor(row, m, group), EntryFor(SwitchTo(row, k, recordId, now), m', group);
            && after.count == before.count
            && (after.active != before.active <==> RecordChain(row.list[k]).birth != Birth(row))
  {
    hide EntryFor, Hits, Carries, SwitchTo, MessagesFromJson, ToJson, Count, Older;
    var after := SwitchTo(row, k, recordId, now);
    SwitchEnds(row, k, recordId, now);
    CountAfterSwitch(row, k, recordId, now, group);
    HitsOfLive(row, m, group);
    HitsOfLive(after, m', group);
    EntryCountsChains(row, m, group);
    EntryCountsChains(after, m', group);
    ChainCarries(AllChains(row), 0, m, group);
    ChainCarries(AllChains(row), k + 1, m', group);
    if RecordChain(row.list[k]).birth != Birth(row) {
      RanksAreDistinct(AllChains(row), group, 0, k + 1);
    }
  }

  /** Switching to a chain of the group never changes the count shown. It moves the active place exactly when the
      record is fetched at all, which it is not if it holds the very messages that are live, and was born at
      another time. */
  lemma ViewAfterSwitching(row: Stored, branchId: string, recordId: string, now: Time, m: Message, m': Message,
                           group: string)
    requires Valid(row) && FindRecord(row.list, branchId).Some? && |Hits(row.list, group)| <= MAX_LISTED
    requires m in LiveChain(row).messages && m.forkGroupId == Some(group)
    requires m' in RecordChain(row.list[FindRecord(row.list, branchId).value]).messages
    requires m'.forkGroupId == Some(group)
    ensures var k := FindRecord(row.list, branchId).value;
            var before := EntryFor(row, m, group);
            var after := EntryFor(Step(row, Switch(branchId, recordId, now)), m', group);
            && after.count == before.count
            && (after.active != before.active <==>
                  SwitchTarget(row, branchId).Some? && RecordChain(row.list[k]).birth != Birth(row))
  {
    var k := FindRecord(row.list, branchId).value;
    if SwitchTarget(row, branchId).Some? {
      ViewAfterSwitch(row, k, recordId, now, m, m', group);
    } else {
      SamePlace(row, m, m', group);
    }
    hide EntryFor, Hits, SwitchTo, MessagesFromJson, ToJson;
  }

  /** Count and place are those of the group, whichever message shows them. */
  lemma SamePlace(row: Stored, m: Message, m': Message, group: string)
    ensures EntryFor(row, m, group).count == EntryFor(row, m', group).count
    ensures EntryFor(row, m, group).active == EntryFor(row, m', group).active
  {
  }

  /** The chain a fork has set aside cannot be fetched exactly when the fork changed nothing: at the last message,
      without other content, and the message had no id, or the minted one. A switch to it then succeeds and leaves
      everything as it is, the active place too, although the births differ. */
  lemma SwitchToTwin(row: Stored, fi: nat, ids: Ids, content: Option<string>, now: Time, recordId: string, now': Time)
    requires Valid(row) && fi < |row.messages.items| && FindRecord(row.list, ids.record).None?
    ensures var after, m := ForkAt(row, fi, ids, content, now), LiveChain(row).messages[fi];
            && Valid(after) && FindRecord(after.list, ids.record) == Some(|row.list|)
            && RecordChain(after.list[|row.list|]).birth == Birth(row) && Birth(after) == now
            && (SwitchTarget(after, ids.record).None? <==>
                 Unchanging(m, ids, content) && fi + 1 == |row.messages.items|)
            && (SwitchTarget(after, ids.record).None? ==> Step(after, Switch(ids.record, recordId, now')) == after)
  {
    hide ToJson, MessagesFromJson;
    var after, n, live := ForkAt(row, fi, ids, content, now), |row.list|, LiveChain(row).messages;
    ForkConserves(row, fi, ids, content, now);
    var stamped := live[fi := Stamp(live[fi], ids.message, ids.group)];
    var copied := live[..fi] + [ForkCopy(live[fi], ids.message, ids.group, content)];
    SavedIsStable(row.messages);
    StampedIsStable(live, fi, ids, content);
    SavedByToJson(stamped);
    SavedByToJson(copied);
    assert FindRecord(after.list, ids.record) == Some(n) by {
      assert after.list[n].id == Some(ids.record);
      assert forall i | 0 <= i < n :: after.list[i] == row.list[i];
    }
    assert ToJson(stamped) == ToJson(copied) <==> stamped == copied;
    TwinsAreEqual(live, fi, ids, content);
  }

  /** The fork's copy of the message is the stamped message itself. */
  predicate Unchanging(m: Message, ids: Ids, content: Option<string>) {
    (m.id.None? || m.id == Some(ids.message)) && (content.None? || content == m.content)
  }

  lemma TwinsAreEqual(live: seq<Message>, fi: nat, ids: Ids, content: Option<string>)
    requires fi < |live|
    ensures live[fi := Stamp(live[fi], ids.message, ids.group)]
              == live[..fi] + [ForkCopy(live[fi], ids.message, ids.group, content)]
            <==> Unchanging(live[fi], ids, content) && fi + 1 == |live|
  {
    var stamped := live[fi := Stamp(live[fi], ids.message, ids.group)];
    var copied := live[..fi] + [ForkCopy(live[fi], ids.message, ids.group, content)];
    assert stamped[fi] == copied[fi] <==> Unchanging(live[fi], ids, content);
    assert |stamped| == |copied| <==> fi + 1 == |live|;
  }

  /** Regenerating the only message of a chain, which has no id yet: the chain set aside was born at 1, the new one
      at 2, and a switch back does nothing. */
  lemma TwinOfOneMessage()
    ensures var m := Message(Some("assistant"), Some("Hello"), None, None, None, [], None, None, None, 0.0,
                             None, None, None);
            var row := Stored(1, ToJson([m]), None, []);
            && Valid(row)
            && var after := Step(row, Fork(None, 0, None, Ids("message", "group", "record"), 2));
            && Valid(after) && |after.list| == 1
            && RecordChain(after.list[0]).birth == 1 && Birth(after) == 2
            && Step(after, Switch("record", "another", 3)) == after
  {
    var m := Message(Some("assistant"), Some("Hello"), None, None, None, [], None, None, None, 0.0, None, None, None);
    hide ToJson, MessagesFromJson;
    SavedByToJson([m]);
    SwitchToTwin(Stored(1, ToJson([m]), None, []), 0, Ids("message", "group", "record"), None, 2, "another", 3);
  }

  lemma ChainCarries(chains: seq<Chain>, i: nat, m: Message, group: string)
    requires i < |chains| && m in chains[i].messages && m.forkGroupId == Some(group)
    ensures Carries(chains[i], group)
  {
    var j :| 0 <= j < |chains[i].messages| && chains[i].messages[j] == m;
  }

  /** Forking at a message that carries the group shows one more, as long as there is room to list it. */
  lemma ViewAfterFork(row: Stored, fi: nat, ids: Ids, content: Option<string>, now: Time, group: string)
    requires Valid(row) && fi < |row.messages.items| && |Hits(row.list, group)| < MAX_LISTED
    requires LiveChain(row).messages[fi].forkGroupId == Some(group)
    ensures var after := ForkAt(row, fi, ids, content, now);
            && Valid(after) && fi < |LiveChain(after).messages|
            && EntryFor(after, LiveChain(after).messages[fi], group).count
               == EntryFor(row, LiveChain(row).messages[fi], group).count + 1
  {
    assert |LiveChain(row).messages| == |row.messages.items|;
    hide EntryFor, Hits, Carries, MessagesFromJson, ToJson, Count, Older;
    var after := ForkAt(row, fi, ids, content, now);
    ForkConserves(row, fi, ids, content, now);
    CountAfterFork(row, fi, ids, content, now, group);
    assert LiveChain(after) == AllChains(after)[0];
    var m, m' := LiveChain(row).messages[fi], LiveChain(after).messages[fi];
    HitsOfLive(row, m, group);
    HitsOfLive(after, m', group);
    EntryCountsChains(row, m, group);
    EntryCountsChains(after, m', group);
  }

  // ----- the view -----

  /** The active place of a chain born at t, and the ids of the chains listed. */
  method Rank(createdAts: array<Option<Time>>, branchIds: array<Option<string>>, n: nat, t: Time,
              ghost listed: seq<Record>)
    returns (active: nat, ids: seq<string>)
    requires n == |listed| && n <= createdAts.Length && n <= branchIds.Length
    requires forall k | 0 <= k < n :: createdAts[k] == listed[k].createdAt && branchIds[k] == listed[k].id
    ensures active == 1 + BornBefore(listed, t) && ids == PresentIds(listed)
  {
    hide BornBefore, PresentIds;
    active, ids := 1, [];
    assert listed[..0] == [] && listed[0..] == listed;
    NobodyBorn(t);
    for k := 0 to n
      invariant active == 1 + BornBefore(listed[..k], t)
      invariant ids + PresentIds(listed[k..]) == PresentIds(listed)
    {
      BornBeforeAppend(listed, k, t);
      PresentStep(listed, k, ids);
      if createdAts[k].Some? && createdAts[k].value < t { active := active + 1; }
      if branchIds[k].Some? {
        ids := ids + [branchIds[k].value];
      } else {
        assert ids + [] == ids;
      }
    }
    assert listed[..n] == listed && listed[n..] == [];
  }

  lemma PresentStep(listed: seq<Record>, k: nat, done: seq<string>)
    requires k < |listed|
    ensures done + PresentIds(listed[k..]) ==
        done + (if listed[k].id.Some? then [listed[k].id.value] else []) + PresentIds(listed[k + 1..])
  {
    assert listed[k..][1..] == listed[k + 1..];
  }

  lemma NobodyBorn(t: Time)
    ensures BornBefore([], t) == 0 && PresentIds([]) == []
  {
  }

  /** The body of the view's loop: one entry, from two fixed tables of 64. */
  method EntryOf(row: Stored, m: Message, group: string) returns (entry: Entry)
    ensures entry == EntryFor(row, m, group)
  {
    var createdAts := new Option<Time>[MAX_LISTED](_ => None);
    var branchIds := new Option<string>[MAX_LISTED](_ => None);
    var count := GroupChainCount(row.list, group, createdAts, branchIds);
    var active, ids := Rank(createdAts, branchIds, count - 1, Birth(row), Listed(Hits(row.list, group)));
    entry := Entry(m.id.GetOr(""), count, active, ids);
  }

  /** The entry of one message, if it has one. */
  function Shown(row: Stored, m: Message): seq<Entry> {
    if m.forkGroupId.Some? then [EntryFor(row, m, m.forkGroupId.value)] else []
  }

  lemma EntriesStep(row: Stored, live: seq<Message>, i: nat, done: seq<Entry>)
    requires i < |live|
    ensures done + Entries(row, live[i..]) == done + Shown(row, live[i]) + Entries(row, live[i + 1..])
  {
    hide EntryFor;
    assert live[i..][1..] == live[i + 1..];
  }

  /** session_manager_branch_info_alloc, for the messages of the live chain. */
  method Collect(row: Stored, live: seq<Message>) returns (entries: seq<Entry>)
    ensures entries == Entries(row, live)
  {
    hide EntryFor, Entries;
    entries := [];
    assert live[0..] == live;
    for i := 0 to |live|
      invariant entries + Entries(row, live[i..]) == Entries(row, live)
    {
      EntriesStep(row, live, i, entries);
      if live[i].forkGroupId.Some? {
        var entry := EntryOf(row, live[i], live[i].forkGroupId.value);
        entries := entries + [entry];
      } else {
        assert entries + [] == entries;
      }
    }
    assert live[|live|..] == [];
    NoEntries(row);
  }

  lemma NoEntries(row: Stored)
    ensures Entries(row, []) == []
  {
  }

  /** These are the places of the messages that carry a group, in order. */
  predicate GroupedAt(live: seq<Message>, at: seq<nat>) {
    && (forall k | 0 <= k < |live| :: k in at <==> live[k].forkGroupId.Some?)
    && (forall i | 0 <= i < |at| :: at[i] < |live|) && (forall i, j | 0 <= i < j < |at| :: at[i] < at[j])
  }

  /** The view has one entry for each message of the live chain that carries a group, in the order of the chain. */
  lemma {:induction false} EntriesExact(row: Stored, live: seq<Message>) returns (at: seq<nat>)
    ensures GroupedAt(live, at) && |Entries(row, live)| == |at|
    ensures forall i | 0 <= i < |at| ::
              Entries(row, live)[i] == EntryFor(row, live[at[i]], live[at[i]].forkGroupId.value)
  {
    hide EntryFor;
    at := [];
    if live != [] {
      var rest := EntriesExact(row, live[1..]);
      var moved := seq(|rest|, i requires 0 <= i < |rest| => rest[i] + 1);
      at := (if live[0].forkGroupId.Some? then [0] else []) + moved;
      AfterFirst(live, rest, moved);
    }
  }

  lemma AfterFirst(live: seq<Message>, rest: seq<nat>, moved: seq<nat>)
    requires live != [] && GroupedAt(live[1..], rest)
    requires |moved| == |rest| && forall i | 0 <= i < |rest| :: moved[i] == rest[i] + 1
    ensures GroupedAt(live, (if live[0].forkGroupId.Some? then [0] else []) + moved)
  {
    forall k | 0 < k < |live| ensures k in moved <==> live[k].forkGroupId.Some? {
      assert live[k] == live[1..][k - 1];
      if k - 1 in rest {
        var i :| 0 <= i < |rest| && rest[i] == k - 1;
        assert moved[i] == k;
      }
    }
  }
}
