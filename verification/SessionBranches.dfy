/**
 The branch operations as they run: load the row into a session, work on the session in
 place, save it back. Saving may fail; then the row is what it was.
 */
module SessionBranches {
  import opened Wrappers
  import opened Messages
  import opened Branching

  const MAX_RETRIES := 16

  /** The clock's readings, one after the other, and which of the sleeps between them go well. */
  datatype Timing = Timing(clock: nat -> Time, sleeps: nat -> bool) {

    /** The reading at which a wait that is at number i ends. */
    function WaitFrom(i: nat, prev: Time): Time
      requires i <= MAX_RETRIES
      decreases MAX_RETRIES - i
    {
      if i == MAX_RETRIES || clock(i) > prev || !sleeps(i) then clock(i) else WaitFrom(i + 1, prev)
    }

    /** The birth time of a chain that follows one born at `prev`. */
    function After(prev: Time): Time {
      WaitFrom(0, prev)
    }
  }

  /** The wait ends at the first reading past the live chain's birth, at the first one that a failing sleep follows,
      or at the seventeenth. */
  lemma {:induction false} WaitEnds(time: Timing, i: nat, prev: Time) returns (j: nat)
    requires i <= 16
    ensures i <= j <= 16 && time.WaitFrom(i, prev) == time.clock(j)
    ensures forall k: nat | i <= k < j :: time.clock(k) <= prev && time.sleeps(k)
    ensures j == 16 || time.clock(j) > prev || !time.sleeps(j)
    decreases 16 - i
  {
    j := i;
    if i < 16 && time.clock(i) <= prev && time.sleeps(i) {
      j := WaitEnds(time, i + 1, prev);
    }
  }

  /** When the sleeps go well, a new chain is born strictly after the live one, unless the clock has not passed its
      birth in all seventeen readings. */
  lemma BornLater(time: Timing, prev: Time)
    requires forall j: nat | j < 16 :: time.sleeps(j)
    ensures time.After(prev) > prev <==> exists j: nat :: j <= 16 && time.clock(j) > prev
  {
    var j := WaitEnds(time, 0, prev);
    assert time.clock(j) > prev ==> j <= 16;
  }

  /** A loaded session. */
  class Session {
    var createdAt: Time
    var messages: seq<Message>
    var activeCreatedAt: Option<Time>
    var list: seq<Record>

    /** The row saving this session writes. */
    function Row(): Stored
      reads this
    {
      Stored(createdAt, ToJson(messages), activeCreatedAt, list)
    }

    constructor (row: Stored)
      ensures createdAt == row.createdAt && activeCreatedAt == row.activeCreatedAt && list == row.list && messages == []
    {
      createdAt, activeCreatedAt, list, messages := row.createdAt, row.activeCreatedAt, row.list, [];
    }

    /** session_deserialize_messages: a document that is not an array leaves the messages alone. */
    method DeserializeMessages(document: Json) returns (ok: bool)
      modifies this`messages
      ensures ok <==> FromJson(document).Ok?
      ensures messages == if ok then FromJson(document).value else old(messages)
    {
      if !document.JArray? { return false; }
      messages := [];
      for i := 0 to |document.items|
        invariant |messages| == i && forall k | 0 <= k < i :: messages[k] == MessageFromJson(document.items[k])
      {
        messages := messages + [MessageFromJson(document.items[i])];
      }
      ok := true;
    }

    /** session_truncate_messages */
    method TruncateMessages(index: nat)
      requires index <= |messages|
      modifies this`messages
      ensures messages == old(messages)[..index]
    {
      while |messages| > index
        invariant index <= |messages| <= |old(messages)| && messages == old(messages)[..|messages|]
      {
        messages := messages[..|messages| - 1];
      }
    }

    /** branch_record_snapshot_live: appended, never replacing a sibling. */
    method SnapshotLive(recordId: string)
      modifies this`list
      ensures list == old(list)
                      + [Record(Some(recordId), Some(activeCreatedAt.GetOr(createdAt)), Some(ToJson(messages)))]
    {
      var snapshot := MessagesToJsonArray(messages);
      list := list + [Record(Some(recordId), Some(activeCreatedAt.GetOr(createdAt)), Some(snapshot))];
    }

    /** branch_find_fork_index */
    method FindForkIndex(messageId: Option<string>, index: int) returns (fi: int)
      ensures fi == -1 || 0 <= fi < |messages|
      ensures if messageId.Some? && exists k :: 0 <= k < |messages| && messages[k].id == messageId then
                fi >= 0 && messages[fi].id == messageId && forall k | 0 <= k < fi :: messages[k].id != messageId
              else
                fi == if 0 <= index < |messages| then index else -1
    {
      fi := -1;
      if messageId.Some? {
        var i := 0;
        while i < |messages|
          invariant 0 <= i <= |messages| && fi == -1
          invariant forall k | 0 <= k < i :: messages[k].id != messageId
        {
          if messages[i].id == messageId {
            fi := i;
            break;
          }
          i := i + 1;
        }
      }
      if fi < 0 { fi := index; }
      if fi < 0 || fi >= |messages| { fi := -1; }
    }

    /** branch_next_created_at: re-reads the clock until it is past the live chain's birth, at most
        sixteen times; a failing sleep ends the wait. */
    method NextCreatedAt(time: Timing) returns (now: Time)
      ensures now == time.After(activeCreatedAt.GetOr(createdAt))
    {
      var prev := activeCreatedAt.GetOr(createdAt);
      now := time.clock(0);
      var i := 0;
      while i < MAX_RETRIES && now <= prev
        invariant 0 <= i <= MAX_RETRIES && now == time.clock(i)
        invariant time.WaitFrom(i, prev) == time.After(prev)
      {
        if !time.sleeps(i) { break; }
        i := i + 1;
        now := time.clock(i);
      }
    }

    /** branch_do_fork, up to the save. */
    method DoFork(fi: nat, content: Option<string>, ids: Ids, time: Timing) returns (now: Time)
      requires fi < |messages|
      modifies this
      ensures now == time.After(old(activeCreatedAt).GetOr(old(createdAt)))
      ensures createdAt == old(createdAt) && activeCreatedAt == Some(now)
      ensures messages == old(messages)[..fi] + [ForkCopy(old(messages)[fi], ids.message, ids.group, content)]
      ensures list == old(list) + [Record(Some(ids.record), Some(old(activeCreatedAt).GetOr(old(createdAt))),
                                          Some(ToJson(old(messages)[fi :=
                                                 Stamp(old(messages)[fi], ids.message, ids.group)])))]
    {
      var group := if messages[fi].forkGroupId.Some? then messages[fi].forkGroupId.value else ids.group;
      var copy := messages[fi].(id := Some(ids.message), forkGroupId := Some(group));
      if content.Some? { copy := copy.(content := content); }
      if messages[fi].forkGroupId.None? {
        messages := messages[fi := messages[fi].(forkGroupId := Some(group))];
      }
      if messages[fi].id.None? {
        messages := messages[fi := messages[fi].(id := Some(ids.message))];
      }
      assert messages == old(messages)[fi := Stamp(old(messages)[fi], ids.message, ids.group)];
      SnapshotLive(ids.record);
      TruncateMessages(fi + 1);
      messages := messages[fi := copy];
      now := NextCreatedAt(time);
      activeCreatedAt := Some(now);
    }

    /** branch_record_find */
    method FindRecordIndex(branchId: string) returns (k: nat)
      ensures k == match FindRecord(list, branchId) case Some(i) => i case None => |list|
    {
      k := 0;
      while k < |list| && list[k].id != Some(branchId)
        invariant 0 <= k <= |list|
        invariant forall i | 0 <= i < k :: list[i].id != Some(branchId)
      {
        k := k + 1;
      }
    }

    /** The part of session_manager_switch_branch that changes the session: set the live chain aside,
        load record k, take over its birth and drop it from the list. */
    method DoSwitch(k: nat, recordId: string, time: Timing) returns (now: Time)
      requires k < |list| && list[k].messages.Some? && list[k].messages.value.JArray?
      modifies this
      ensures createdAt == old(createdAt)
      ensures messages == MessagesFromJson(old(list)[k].messages.value.items)
      ensures now == old(list)[k].createdAt.GetOr(time.After(old(activeCreatedAt).GetOr(old(createdAt))))
      ensures activeCreatedAt == Some(now)
      ensures list == old(list)[..k] + old(list)[k + 1..]
                      + [Record(Some(recordId), Some(old(activeCreatedAt).GetOr(old(createdAt))),
                                Some(ToJson(old(messages))))]
    {
      hide MessagesFromJson, ToJson;
      var target := list[k];
      SnapshotLive(recordId);
      TruncateMessages(0);
      var _ := DeserializeMessages(target.messages.value);
      if target.createdAt.Some? {
        now := target.createdAt.value;
      } else {
        now := NextCreatedAt(time);
      }
      activeCreatedAt := Some(now);
      list := list[..k] + list[k + 1..];
    }
  }

  class SessionManager {
    var row: Stored

    /** session_manager_save_session_nolock, which works or not. */
    method Save(s: Session, works: bool) returns (ok: bool)
      modifies this`row
      ensures ok == works && row == if ok then s.Row() else old(row)
    {
      if works { row := s.Row(); }
      ok := works;
    }

    /** session_manager_fork_branch */
    method ForkBranch(messageId: Option<string>, index: int, content: Option<string>, ids: Ids, time: Timing,
                      saves: bool)
      returns (rc: int)
      modifies this`row
      ensures rc == 0 || rc == -1
      ensures rc == -1 ==> row == old(row)
      ensures rc == 0 <==>
                && old(row).messages.JArray? && saves
                && exists fi :: IsForkPlace(MessagesFromJson(old(row).messages.items), messageId, index, fi)
      ensures rc == 0 ==>
          var live, now := MessagesFromJson(old(row).messages.items), time.After(Birth(old(row)));
          && row == Step(old(row), Fork(messageId, index, content, ids, now))
          && forall fi | IsForkPlace(live, messageId, index, fi) :: Forked(old(row), row, live, fi, content, ids, now)
    {
      hide ToJson, MessagesFromJson, ForkIndex, Forked;
      rc := -1;
      var s := new Session(row);
      var loaded := s.DeserializeMessages(row.messages);
      if !loaded { return; }
      var fi := s.FindForkIndex(messageId, index);
      ForkIndexIsPlace(s.messages, messageId, index);
      if fi < 0 {
        assert forall k :: !IsForkPlace(s.messages, messageId, index, k);
        return;
      }
      assert IsForkPlace(s.messages, messageId, index, fi);
      hide IsForkPlace;
      ForkedAt(row, fi, ids, content, time.After(Birth(row)));
      var _ := s.DoFork(fi, content, ids, time);
      var saved := Save(s, saves);
      if saved { rc := 0; }
    }

    /** session_manager_switch_branch */
    method SwitchBranch(branchId: string, recordId: string, time: Timing, saves: bool) returns (rc: int)
      modifies this`row
      ensures rc == 0 || rc == -1
      ensures rc == -1 ==> row == old(row)
      ensures rc == 0 <==> Fetchable(old(row), branchId) && (saves || IsLive(old(row), branchId))
      ensures rc == 0 ==>
          && row == Step(old(row), Switch(branchId, recordId, time.After(Birth(old(row)))))
          && if IsLive(old(row), branchId) then row == old(row)
             else Switched(old(row), row, branchId, recordId, time.After(Birth(old(row))))
    {
      hide ToJson, MessagesFromJson, Switched;
      rc := -1;
      var s := new Session(row);
      var loaded := s.DeserializeMessages(row.messages);
      if !loaded { return; }
      var k := s.FindRecordIndex(branchId);
      if k == |s.list| { return; }
      var snapshot := s.list[k].messages;
      if snapshot.None? || !snapshot.value.JArray? { return; }
      var live := MessagesToJsonArray(s.messages);
      if live == snapshot.value { return 0; }
      SwitchedTo(row, branchId, recordId, time.After(Birth(row)));
      var _ := s.DoSwitch(k, recordId, time);
      var saved := Save(s, saves);
      if saved { rc := 0; }
    }
  }

  /** What a fork at message fi makes of a row: before it the messages stay, it becomes one with the fresh id, the
      group and the new content if there is one, nothing follows; and the old messages, with that one stamped, become
      the last record, born when they were. */
  ghost predicate Forked(before: Stored, after: Stored, live: seq<Message>, fi: int, content: Option<string>, ids: Ids,
                         now: Time)
    requires 0 <= fi < |live|
  {
    var group := if live[fi].forkGroupId.Some? then live[fi].forkGroupId.value else ids.group;
    var copy := live[fi].(id := Some(ids.message), forkGroupId := Some(group),
                          content := if content.Some? then content else live[fi].content);
    var stamped := live[fi].(id := if live[fi].id.Some? then live[fi].id else Some(ids.message),
                             forkGroupId := Some(group));
    && after.createdAt == before.createdAt && after.activeCreatedAt == Some(now)
    && after.messages == ToJson(live[..fi] + [copy])
    && |after.list| == |before.list| + 1 && after.list[..|before.list|] == before.list
    && after.list[|before.list|] ==
         Record(Some(ids.record),
                Some(if before.activeCreatedAt.Some? then before.activeCreatedAt.value else before.createdAt),
                Some(ToJson(live[..fi] + [stamped] + live[fi + 1..])))
  }

  lemma ForkedAt(row: Stored, fi: nat, ids: Ids, content: Option<string>, now: Time)
    requires row.messages.JArray? && fi < |row.messages.items|
    ensures Forked(row, ForkAt(row, fi, ids, content, now), MessagesFromJson(row.messages.items), fi, content, ids, now)
  {
    hide MessagesFromJson, ToJson;
    var live := MessagesFromJson(row.messages.items);
    var stamped := Stamp(live[fi], ids.message, ids.group);
    assert live[fi := stamped] == live[..fi] + [stamped] + live[fi + 1..];
  }

  /** There is a record of that id, and it holds messages. */
  predicate Fetchable(row: Stored, branchId: string) {
    && row.messages.JArray?
    && var k := FindRecord(row.list, branchId);
       k.Some? && row.list[k.value].messages.Some? && row.list[k.value].messages.value.JArray?
  }

  /** ... and they are the live ones, as written. */
  predicate IsLive(row: Stored, branchId: string) {
    && Fetchable(row, branchId)
    && row.list[FindRecord(row.list, branchId).value].messages.value == ToJson(MessagesFromJson(row.messages.items))
  }

  /** What a switch to the record makes of a row: its messages and birth go live, it leaves the list, and the old
      messages become the last record, born when they were. */
  ghost predicate Switched(before: Stored, after: Stored, branchId: string, recordId: string, now: Time)
    requires Fetchable(before, branchId)
  {
    var k := FindRecord(before.list, branchId).value;
    var target := before.list[k];
    && after.createdAt == before.createdAt
    && after.messages == ToJson(MessagesFromJson(target.messages.value.items))
    && after.activeCreatedAt == Some(if target.createdAt.Some? then target.createdAt.value else now)
    && |after.list| == |before.list|
    && (forall i | 0 <= i < k :: after.list[i] == before.list[i])
    && (forall i | k < i < |before.list| :: after.list[i - 1] == before.list[i])
    && after.list[|before.list| - 1] ==
         Record(Some(recordId),
                Some(if before.activeCreatedAt.Some? then before.activeCreatedAt.value else before.createdAt),
                Some(ToJson(MessagesFromJson(before.messages.items))))
  }

  lemma SwitchedTo(row: Stored, branchId: string, recordId: string, now: Time)
    requires Fetchable(row, branchId)
    ensures Switched(row, SwitchTo(row, FindRecord(row.list, branchId).value, recordId, now), branchId, recordId, now)
  {
    hide MessagesFromJson, ToJson;
  }
}
