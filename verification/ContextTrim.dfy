/**
 Trimming a conversation to a token budget: system messages stay, then the most recent run of other
 messages that fits, and an assistant message whose tool result would otherwise stand alone.
 */
module ContextTrim {
  import opened Wrappers

  /** The fields trimming looks at; content may be NULL. */
  datatype Message = Message(role: string, content: Option<string>)

  const MOVED := Message("", None)

  function EstimateTokens(text: Option<string>): (t: nat)
    ensures t > 0 <==> text.Some?
  {
    if text.None? then 0 else |text.value| / 4 + 1
  }

  predicate IsSystem(m: Message) {
    m.role == "system"
  }

  predicate IsTool(m: Message) {
    m.role == "tool"
  }

  predicate IsAssistant(m: Message) {
    m.role == "assistant"
  }

  /** Tokens of the non-system messages from `start` on. */
  function RunTokens(msgs: seq<Message>, start: nat): nat
    requires start <= |msgs|
    decreases |msgs| - start
  {
    if start == |msgs| then 0
    else (if IsSystem(msgs[start]) then 0 else EstimateTokens(msgs[start].content)) + RunTokens(msgs, start + 1)
  }

  function TotalTokens(msgs: seq<Message>): nat {
    if msgs == [] then 0 else TotalTokens(msgs[..|msgs| - 1]) + EstimateTokens(msgs[|msgs| - 1].content)
  }

  /** Where the recent run begins, looking back from `n` with so much budget left. */
  function RunStart(msgs: seq<Message>, n: nat, budget: int): (start: nat)
    requires n <= |msgs|
    ensures start <= n
  {
    if n == 0 then 0
    else if IsSystem(msgs[n - 1]) then RunStart(msgs, n - 1, budget)
    else if budget - EstimateTokens(msgs[n - 1].content) >= 0
    then RunStart(msgs, n - 1, budget - EstimateTokens(msgs[n - 1].content))
    else n
  }

  /** The assistant message before a run that begins with its tool result. */
  predicate Rescued(msgs: seq<Message>, start: nat, i: nat) {
    i + 1 == start && start < |msgs| && IsTool(msgs[start]) && IsAssistant(msgs[i])
  }

  predicate Kept(msgs: seq<Message>, start: nat, i: nat)
    requires i < |msgs|
  {
    IsSystem(msgs[i]) || i >= start || Rescued(msgs, start, i)
  }

  /** The kept messages among the first n, in their order. */
  function Select(msgs: seq<Message>, start: nat, n: nat): seq<Message>
    requires n <= |msgs|
  {
    if n == 0 then []
    else Select(msgs, start, n - 1) + if Kept(msgs, start, n - 1) then [msgs[n - 1]] else []
  }

  function Trimmed(msgs: seq<Message>, maxTokens: int): seq<Message> {
    if TotalTokens(msgs) <= maxTokens then msgs
    else Select(msgs, RunStart(msgs, |msgs|, maxTokens), |msgs|)
  }

  // ----- the algorithm -----

  /** trim_messages_by_tokens_new */
  method TrimMessagesByTokens(msgs: array<Message>, maxTokens: int) returns (trimmed: array<Message>)
    modifies msgs
    ensures trimmed[..] == Trimmed(old(msgs[..]), maxTokens)
    ensures fresh(trimmed) || (trimmed == msgs && msgs[..] == old(msgs[..]))
  {
    ghost var all := msgs[..];
    var total := CountTokens(msgs);
    if msgs.Length == 0 || total <= maxTokens { return msgs; }
    var keep := new bool[msgs.Length];
    forall i | 0 <= i < msgs.Length { keep[i] := IsSystem(msgs[i]); }
    ghost var start := KeepRecent(msgs, keep, maxTokens);
    KeepAssistants(msgs, keep, start);
    var count := CountKept(keep, all, start);
    trimmed := new Message[count](_ => MOVED);
    MoveKept(msgs, keep, trimmed, all, start);
  }

  method CountTokens(msgs: array<Message>) returns (total: nat)
    ensures total == TotalTokens(msgs[..])
  {
    total := 0;
    var i := 0;
    while i < msgs.Length
      invariant 0 <= i <= msgs.Length && total == TotalTokens(msgs[..i])
    {
      assert msgs[..i + 1][..i] == msgs[..i];
      total := total + EstimateTokens(msgs[i].content);
      i := i + 1;
    }
    assert msgs[..i] == msgs[..];
  }

  /** The budget loop, newest first. */
  method KeepRecent(msgs: array<Message>, keep: array<bool>, maxTokens: int) returns (ghost start: nat)
    requires keep.Length == msgs.Length && forall i | 0 <= i < msgs.Length :: keep[i] == IsSystem(msgs[i])
    modifies keep
    ensures start == RunStart(msgs[..], msgs.Length, maxTokens)
    ensures forall i | 0 <= i < msgs.Length :: keep[i] == (IsSystem(msgs[i]) || i >= start)
  {
    var budget, i := maxTokens, msgs.Length - 1;
    while i >= 0
      invariant -1 <= i < msgs.Length
      invariant RunStart(msgs[..], i + 1, budget) == RunStart(msgs[..], msgs.Length, maxTokens)
      invariant forall k | 0 <= k < msgs.Length :: keep[k] == (IsSystem(msgs[k]) || k > i)
    {
      if !keep[i] {
        var t := EstimateTokens(msgs[i].content);
        if budget - t < 0 { break; }
        keep[i] := true;
        budget := budget - t;
      }
      i := i - 1;
    }
    start := i + 1;
  }

  /** Tool results are not left alone: only the message just before the run can be added, and the test for a dropped
      tool result after a kept assistant never succeeds. */
  method KeepAssistants(msgs: array<Message>, keep: array<bool>, ghost start: nat)
    requires keep.Length == msgs.Length && start <= msgs.Length
    requires forall i | 0 <= i < msgs.Length :: keep[i] == (IsSystem(msgs[i]) || i >= start)
    modifies keep
    ensures forall i | 0 <= i < msgs.Length :: keep[i] == Kept(msgs[..], start, i)
  {
    var i := 1;
    while i < msgs.Length
      invariant 1 <= i && (msgs.Length > 0 ==> i <= msgs.Length)
      invariant forall k | 0 <= k < msgs.Length ::
          keep[k] == (IsSystem(msgs[k]) || k >= start || (k + 1 < i && Rescued(msgs[..], start, k)))
    {
      if IsTool(msgs[i]) && keep[i] && !keep[i - 1] && IsAssistant(msgs[i - 1]) {
        keep[i - 1] := true;
      }
      if i + 1 < msgs.Length && IsTool(msgs[i + 1]) && keep[i] && !keep[i + 1] && IsAssistant(msgs[i]) {
        keep[i + 1] := true;
      }
      i := i + 1;
    }
  }

  method CountKept(keep: array<bool>, ghost msgs: seq<Message>, ghost start: nat) returns (count: nat)
    requires keep.Length == |msgs| && forall i | 0 <= i < |msgs| :: keep[i] == Kept(msgs, start, i)
    ensures count == |Select(msgs, start, |msgs|)|
  {
    count := 0;
    var i := 0;
    while i < keep.Length
      invariant 0 <= i <= keep.Length && count == |Select(msgs, start, i)|
    {
      if keep[i] { count := count + 1; }
      i := i + 1;
    }
  }

  lemma {:induction false} SelectGrows(msgs: seq<Message>, start: nat, i: nat, n: nat)
    requires i <= n <= |msgs|
    ensures |Select(msgs, start, i)| <= |Select(msgs, start, n)|
    decreases n - i
  {
    if i < n { SelectGrows(msgs, start, i, n - 1); }
  }

  /** The kept messages move over; every slot written is within the new array. */
  method MoveKept(msgs: array<Message>, keep: array<bool>, trimmed: array<Message>, ghost all: seq<Message>,
                  ghost start: nat)
    requires msgs[..] == all && keep.Length == msgs.Length && msgs != trimmed
    requires forall i | 0 <= i < |all| :: keep[i] == Kept(all, start, i)
    requires trimmed.Length == |Select(all, start, |all|)|
    modifies msgs, trimmed
    ensures trimmed[..] == Select(all, start, |all|)
  {
    var out, i := 0, 0;
    while i < msgs.Length
      invariant 0 <= i <= msgs.Length && out == |Select(all, start, i)| <= trimmed.Length
      invariant msgs[i..] == all[i..]
      invariant trimmed[..out] == Select(all, start, i)
    {
      SelectGrows(all, start, i + 1, |all|);
      assert msgs[i] == msgs[i..][0] == all[i];
      if keep[i] {
        trimmed[out] := msgs[i];
        out := out + 1;
        msgs[i] := MOVED;
      }
      assert msgs[i + 1..] == all[i + 1..] by { assert all[i..][1..] == all[i + 1..]; }
      i := i + 1;
    }
    assert trimmed[..out] == trimmed[..];
  }

  // ----- what is kept -----

  function Positive(budget: int): nat {
    if budget >= 0 then budget else 0
  }

  /** The run fits; a negative budget is as good as none. */
  lemma {:induction false} RunFits(msgs: seq<Message>, n: nat, budget: int)
    requires n <= |msgs|
    ensures RunTokens(msgs, RunStart(msgs, n, budget)) - RunTokens(msgs, n) <= Positive(budget)
  {
    if n > 0 {
      if IsSystem(msgs[n - 1]) {
        RunFits(msgs, n - 1, budget);
      } else if budget - EstimateTokens(msgs[n - 1].content) >= 0 {
        RunFits(msgs, n - 1, budget - EstimateTokens(msgs[n - 1].content));
      }
    }
  }

  /** ... and it is the longest that does: with the message before it, it would not. */
  lemma {:induction false} RunIsLongest(msgs: seq<Message>, n: nat, budget: int)
    requires n <= |msgs|
    ensures var start := RunStart(msgs, n, budget);
            start > 0 ==> !IsSystem(msgs[start - 1]) && RunTokens(msgs, start - 1) - RunTokens(msgs, n) > budget
  {
    if n > 0 {
      if IsSystem(msgs[n - 1]) {
        RunIsLongest(msgs, n - 1, budget);
      } else if budget - EstimateTokens(msgs[n - 1].content) >= 0 {
        RunIsLongest(msgs, n - 1, budget - EstimateTokens(msgs[n - 1].content));
      }
    }
  }

  /** The result as a choice of positions: which messages of the original it holds, in which order. */
  function Positions(msgs: seq<Message>, start: nat, n: nat): seq<nat>
    requires n <= |msgs|
  {
    if n == 0 then []
    else Positions(msgs, start, n - 1) + if Kept(msgs, start, n - 1) then [n - 1] else []
  }

  /** An order-preserving subsequence that holds exactly the kept messages. */
  lemma {:induction false} SelectIsSubsequence(msgs: seq<Message>, start: nat, n: nat)
    requires n <= |msgs|
    ensures var at := Positions(msgs, start, n);
            && |at| == |Select(msgs, start, n)|
            && (forall i | 0 <= i < |at| :: at[i] < n && Select(msgs, start, n)[i] == msgs[at[i]])
            && (forall i, j | 0 <= i < j < |at| :: at[i] < at[j])
            && forall k | 0 <= k < n :: k in at <==> Kept(msgs, start, k)
  {
    if n > 0 {
      SelectIsSubsequence(msgs, start, n - 1);
      var before, at := Positions(msgs, start, n - 1), Positions(msgs, start, n);
      forall k | 0 <= k < n ensures k in at <==> Kept(msgs, start, k) {
        if Kept(msgs, start, n - 1) { assert at[|at| - 1] == n - 1; }
        if k < n - 1 && k in before { assert k in at; }
      }
    }
  }

  /** The tokens of the non-system messages that are kept. */
  function KeptTokens(msgs: seq<Message>, start: nat, n: nat): nat
    requires n <= |msgs|
  {
    if n == 0 then 0
    else KeptTokens(msgs, start, n - 1)
         + if Kept(msgs, start, n - 1) && !IsSystem(msgs[n - 1]) then EstimateTokens(msgs[n - 1].content) else 0
  }

  lemma {:induction false} KeptIsRunAndRescued(msgs: seq<Message>, start: nat, n: nat)
    requires start <= |msgs| && n <= |msgs|
    ensures n < start ==> KeptTokens(msgs, start, n) == 0
    ensures n >= start ==>
              KeptTokens(msgs, start, n) == RunTokens(msgs, start) - RunTokens(msgs, n)
                + if start > 0 && Rescued(msgs, start, start - 1) then EstimateTokens(msgs[start - 1].content) else 0
  {
    if n > 0 { KeptIsRunAndRescued(msgs, start, n - 1); }
  }

  /** When trimming happens: every system message stays, the kept others take at most the budget plus the one assistant
      message that was rescued, and no kept tool message has lost the assistant message just before it. */
  lemma TrimmingKeeps(msgs: seq<Message>, maxTokens: int)
    requires TotalTokens(msgs) > maxTokens
    ensures var start := RunStart(msgs, |msgs|, maxTokens);
            var rescued :=
              if start > 0 && Rescued(msgs, start, start - 1) then EstimateTokens(msgs[start - 1].content) else 0;
            && Trimmed(msgs, maxTokens) == Select(msgs, start, |msgs|)
            && (forall i | 0 <= i < |msgs| && IsSystem(msgs[i]) :: Kept(msgs, start, i))
            && KeptTokens(msgs, start, |msgs|) <= Positive(maxTokens) + rescued
            && (start > 0 ==> RunTokens(msgs, start - 1) > maxTokens)
            && forall i | 0 < i < |msgs| && IsTool(msgs[i]) && IsAssistant(msgs[i - 1]) && Kept(msgs, start, i) ::
                 Kept(msgs, start, i - 1)
  {
    hide RunStart, RunTokens, KeptTokens, Select, TotalTokens, Kept;
    var start := RunStart(msgs, |msgs|, maxTokens);
    RunIsLongest(msgs, |msgs|, maxTokens);
    RunFits(msgs, |msgs|, maxTokens);
    KeptIsRunAndRescued(msgs, start, |msgs|);
    NothingAfter(msgs);
    Companions(msgs, start);
  }

  lemma NothingAfter(msgs: seq<Message>)
    ensures RunTokens(msgs, |msgs|) == 0
  {
  }

  /** System messages stay, and a kept tool message keeps the assistant message just before it. */
  lemma Companions(msgs: seq<Message>, start: nat)
    requires start <= |msgs|
    ensures forall i | 0 <= i < |msgs| && IsSystem(msgs[i]) :: Kept(msgs, start, i)
    ensures forall i | 0 < i < |msgs| && IsTool(msgs[i]) && IsAssistant(msgs[i - 1]) && Kept(msgs, start, i) ::
        Kept(msgs, start, i - 1)
  {
  }

  // ----- the result in plain words -----

  /** What messages cost: nothing without content, else one token and one for every four characters. */
  function Cost(msgs: seq<Message>): nat {
    if msgs == [] then 0
    else (if msgs[0].content.Some? then |msgs[0].content.value| / 4 + 1 else 0) + Cost(msgs[1..])
  }

  function NotSystem(msgs: seq<Message>): seq<Message> {
    if msgs == [] then [] else (if msgs[0].role != "system" then [msgs[0]] else []) + NotSystem(msgs[1..])
  }

  lemma {:induction false} CostMore(msgs: seq<Message>, m: Message)
    ensures Cost(msgs + [m]) == Cost(msgs) + if m.content.Some? then |m.content.value| / 4 + 1 else 0
  {
    if msgs == [] {
      assert [m][1..] == [];
    } else {
      assert (msgs + [m])[1..] == msgs[1..] + [m];
      CostMore(msgs[1..], m);
    }
  }

  lemma {:induction false} TotalIsCost(msgs: seq<Message>)
    ensures TotalTokens(msgs) == Cost(msgs)
  {
    if msgs != [] {
      var front, m := msgs[..|msgs| - 1], msgs[|msgs| - 1];
      TotalIsCost(front);
      CostMore(front, m);
      assert msgs == front + [m];
    }
  }

  lemma {:induction false} RunIsCost(msgs: seq<Message>, start: nat)
    requires start <= |msgs|
    ensures RunTokens(msgs, start) == Cost(NotSystem(msgs[start..]))
    decreases |msgs| - start
  {
    if start < |msgs| {
      RunIsCost(msgs, start + 1);
      var rest := msgs[start..];
      assert rest[0] == msgs[start] && rest[1..] == msgs[start + 1..];
      if msgs[start].role != "system" {
        assert NotSystem(rest) == [msgs[start]] + NotSystem(rest[1..]) && NotSystem(rest)[1..] == NotSystem(rest[1..]);
      } else {
        assert NotSystem(rest) == NotSystem(rest[1..]);
      }
    }
  }

  /** A conversation that fits the budget comes back whole. Of one that does not, there is a place from which everything
      stays, and before it only system messages and the assistant message whose tool result would begin the rest; what
      is not a system message from there on fits the budget, and with the message before it would not. */
  lemma TrimmedExact(msgs: seq<Message>, maxTokens: int) returns (start: nat, at: seq<nat>)
    ensures Cost(msgs) <= maxTokens ==> Trimmed(msgs, maxTokens) == msgs
    ensures Cost(msgs) > maxTokens ==>
              && start <= |msgs|
              && Cost(NotSystem(msgs[start..])) <= (if maxTokens > 0 then maxTokens else 0)
              && (start > 0 ==> msgs[start - 1].role != "system" && Cost(NotSystem(msgs[start - 1..])) > maxTokens)
              && (forall k | 0 <= k < |msgs| ::
                    k in at <==>
                    || msgs[k].role == "system" || k >= start
                    || (k + 1 == start < |msgs| && msgs[k].role == "assistant" && msgs[start].role == "tool"))
              && (forall i | 0 <= i < |at| :: at[i] < |msgs|) && (forall i, j | 0 <= i < j < |at| :: at[i] < at[j])
              && |Trimmed(msgs, maxTokens)| == |at|
              && forall i | 0 <= i < |at| :: Trimmed(msgs, maxTokens)[i] == msgs[at[i]]
  {
    hide RunStart, RunTokens, Select, TotalTokens, Cost, NotSystem, Positions;
    TotalIsCost(msgs);
    start := RunStart(msgs, |msgs|, maxTokens);
    at := Positions(msgs, start, |msgs|);
    RunFits(msgs, |msgs|, maxTokens);
    RunIsLongest(msgs, |msgs|, maxTokens);
    NothingAfter(msgs);
    RunIsCost(msgs, start);
    if start > 0 { RunIsCost(msgs, start - 1); }
    SelectIsSubsequence(msgs, start, |msgs|);
  }
}
