# Echo: a verified model of its stateful cores

These Dafny modules model the parts of Echo whose correctness depends on order: what happens when a
process dies halfway, when threads interleave, when bytes arrive in pieces, when a user forks and
switches chains of messages. Each part is written in the form the program has (objects whose methods
change their fields, loops over buffers) and proved against a specification of values, about which
the properties are then proved as lemmas. `dafny verify dfyconfig.toml` checks everything.

## The parts

**Password migration** (`Vault`, `Recovery`, `Migration`). A vault is five files and a database; a
change of password moves them to a new key one system call at a time, and a recovery procedure
decides from the disk alone on which side of COMMIT a crash fell. Keys are the pairs they are
derived from and a ciphertext opens under one key only. The main results cover every pattern of
failing steps, a crash after any step, and any number of crashes during recovery. One family of
disks is not recovered: with a state row from an earlier change, a crash between restoring the old
salt and deleting the abandoned verifier makes the rerun promote that verifier.
`AbandonedVerifierExact` and `UndoRestartExact` say exactly when. The header of migration.c promises
the old state on -1. Rows and key in memory always are the old ones then; the files are the old ones
exactly when no marker is left (`PerformChange`). A failed sync of the marker or a failed first
rename leaves the vault at rest with a marker: the next change returns -1, and recovery brings the
vault home (`LeftMarker`, `ChangeAfterLeftMarker`).

**OAuth manager** (`OAuthThreads`, `OAuthManager`). Every critical section of every public call, of
the callback server and of the device poll is a method; `Run` interleaves them in any order, with
the network, the storage and the clock doing anything in between. The invariant ties memory to the
vault, flags and counters to the threads really at work, and, until the 64-bit generation wraps,
commits and polls to the generation they belong to. Three things the code does that a caller may not
expect are stated as they are: the second section of a login start does not look at lifecycle_busy,
so a login can begin while an attach is under way and its tokens can end up with the session
attached last (`StoredElsewhere`), which never happens to a login that begins with no attach under
way (`StoredWhereBegun`), nor to a refresh (`RefreshFinish`); a waiting token call that is stopped
hands on the last result, which may be OK, without a token (`RefreshWake`); and the cleanup after a
failed login start wipes whatever login is pending by then (`StartCleanup`).

**Session branching** (`Messages`, `Branching`, `SessionBranches`, `BranchInfo`). One live chain and
a list of snapshot records, with fork, switch and a counting view. No chain is lost in any run,
which rests on reading back exactly what was written. A switch to a record that holds the messages
that are live succeeds and does nothing. A fork that changes nothing leaves such a record, so
switching back from it does not move the active place in the view (`SwitchToTwin`,
`ViewAfterSwitching`).

**Stream parsers** (`LineFraming`, `ThinkingBlocks`, `CompatibleReply`, `CompatibleStream`,
`CompatibleText`, `CodexCalls`, `CodexReply`, `CodexStream`, `CodexText`, `CodexFraming`). Both
server-sent-event parsers are proved equal to "split into lines, then fold", so how the network cuts
the stream cannot matter; thinking markers alternate and are closed, and between them stand exactly
the texts of the events; the tool calls of a whole stream are put together from their own deltas, in
whatever interleaving they arrive. For the Codex parser this holds without a bound on the total,
because passing a limit is a failure however the stream is cut. Compared with section 9.2.6 of the
WHATWG HTML standard, an empty first data line adds no newline; the model follows the code.

**Smaller loops**: percent and base64url codecs with the callback query (`OAuthCodec`, `OAuthQuery`,
`OAuthText`), context trimming (`ContextTrim`), streaming HTTP requests (`HttpRequest`,
`HttpParse`), undo and redo (`ChangeTracker`). `OAuthText` and `HttpPrint` say what is read and
written character by character, with printers of their own.

## Conventions

A NULL pointer is `None`. Bytes of streams are written as characters; a C string ends before its
first NUL. Results of system calls, of the network and of the clock are arguments, or arbitrary.
Functions named like a C function in their comment are that function.

## Model

| member | source | states |
|---|---|---|
| `Vault.ProbeOpens` | src/session/migration.c:222-287 | The one blob recovery probes opens under a key whenever every row of the database does, so the evidence it gives can be trusted on a vault with a single key. |
| `Vault.ProbeFinds` | src/session/migration.c:222-260 | There is a blob to probe if and only if some session has something encrypted in one of its four columns. |
| `Vault.AllUnderExactly` | src/session/migration.c:454-589 | The database is under a key if and only if every ciphertext in it, in any column of any row, is sealed with that key. |
| `Recovery.RecoversUncommitted` | src/session/migration.c:334-452 | A crash before COMMIT is undone: from every disk the change can leave before COMMIT, one recovery with the password in force gives the disk exactly as it was at rest. |
| `Recovery.RecoversUncommittedWithStateRow` | src/session/migration.c:334-452 | With a state table the same holds whatever password is typed. |
| `Recovery.RecoversCommitted` | src/session/migration.c:334-452 | A crash after COMMIT is completed: one recovery settles salt, verifier and rows under the new key and removes marker, salt.old and .verifier.new; without a state table the new password is needed. |
| `Recovery.AbandonedVerifierExact` | src/session/migration.c:293-331 | On the disk where the old salt is back but .verifier.new is still there, the rerun comes home if and only if no earlier change left a state row; otherwise it promotes the abandoned verifier and no password fits verifier and salt any more. |
| `Recovery.UndoRestartExact` | src/session/migration.c:293-331 | Cutting the recovery of an uncommitted change short after any step is harmless if and only if there is not both an earlier state row and a .verifier.new. |
| `Recovery.UndoableRecovers` | src/session/migration.c:334-452 | Every disk outside that exception is brought back to rest, the half-restored ones included. |
| `Recovery.UndoKeeps` | src/session/migration.c:293-331 | What an interrupted undo leaves can be undone again. |
| `Recovery.CompletionKeeps` | src/session/migration.c:293-331 | What an interrupted completion leaves can be completed again, with the same rows. |
| `Recovery.GivesUpExactly` | src/session/migration.c:163-452 | Recovery leaves a disk without a marker alone and no other. It gives up if and only if there is no salt to restore or, with two salts and no state table, the rows open under both keys or neither; the verifier decides when there is nothing encrypted. |
| `Recovery.WrongPasswordRefused` | src/session/migration.c:222-287 | Halfway through the swap of a vault without a state table, a password that made neither key is refused. |
| `Migration.SessionManager.RestoreOldFiles` | src/session/migration.c:616-626 | The in-process restore, one system call at a time: every disk it passes is a step of the undo, or the one that a failed rename leaves. |
| `Migration.SessionManager.FinalizeRecovery` | src/session/migration.c:293-331 | Both directions of the last recovery phase pass exactly the specified disks, whichever step fails. |
| `Migration.SessionManager.JudgeDisk` | src/session/migration.c:163-287 | Salt, state row and, without a state table, the evidence of both salts decide which side of COMMIT the crash fell on, or that they do not tell. |
| `Migration.SessionManager.CheckAndRecover` | src/session/migration.c:334-452 | Recovery step by step refines the specified recovery on every disk: same verdict without failures, and under any failures or crash only disks of that recovery. |
| `Migration.SessionManager.MigrateSession` | src/session/migration.c:470-492 | One turn of the loop: the row is loaded under the old key and saved under the new one, column by column as above. |
| `Migration.SessionManager.MigrateSessions` | src/session/migration.c:454-496 | Success means every session opened under the old key and the same rows now open under the new one, column by column with the plaintexts they had: a present messages, metadata or events column keeps its text, an absent one becomes "[]", "{}" or "[]", a title that is not empty stays. Without failures it succeeds if and only if every row opens and every id is a non-empty C string. |
| `Migration.SessionManager.MigrateProviderOAuth` | src/session/migration.c:498-589 | The same for the provider rows: same providers, same payloads, in order; without failures it succeeds if and only if every row opens and no provider name or payload is empty or holds a NUL. |
| `Migration.SessionManager.RecordCommittedSalt` | src/session/migration.c:591-614 | The state table holds exactly the new salt in the image to be committed. |
| `Migration.SessionManager.PrepareFiles` | src/session/migration.c:651-664 | Old salt aside, new salt and new verifier written: every intermediate disk is one the uncommitted recovery handles. |
| `Migration.SessionManager.Reencrypt` | src/session/migration.c:667-715 | One transaction: on failure database and key in memory are the old ones; on success all rows are under the new key and every column holds the text it had. |
| `Migration.SessionManager.Activate` | src/session/migration.c:680-705 | After COMMIT nothing is undone: 0 or -2, every disk on the way is a committed one with the same rows. |
| `Migration.SessionManager.PerformChange` | src/session/migration.c:634-729 | Result codes under every pattern of failures: 0 is salt, verifier, key in memory and all rows new; -1 is rows and key old; -2 is rows and key new; ids, dates and the text of every column never change. From rest, -1 leaves the old files exactly when it leaves no marker, and without failures the result is 0 if and only if every row can be moved. Every disk a crash could leave is one that recovery undoes or completes, according to whether COMMIT had happened. |
| `Migration.SessionManager.RestartUntilRecovered` | src/session/migration.c:334-452 | Recovery cut short any number of times and then run to its end gives what one uninterrupted recovery gives. |
| `Migration.SessionManager.CrashDuringChange` | src/session/migration.c:634-729 | A change that dies after any step, then restarts that die any number of times: once a restart succeeds the vault is as before when the crash fell before COMMIT (outside the abandoned-verifier case), and settled under the new key, every column with the text it had, when it fell after; under the same conditions a last restart without failures succeeds. |
| `Migration.LeftMarker` | src/session/migration.c:649-652 | The vault at rest with a marker, which a failed marker sync or first rename leaves, is not the old state, but one recovery makes it so. |
| `Migration.SessionManager.ChangeAfterLeftMarker` | src/session/migration.c:634-729 | On that disk the next change is refused with -1, and a recovery without failures restores the vault at rest. |
| `Migration.HandledKeeps` | src/session/migration.c:293-331 | One more interrupted recovery leaves a disk that the remaining ones can be relied on to bring home. |
| `Migration.HandledRecovers` | src/session/migration.c:334-452 | The last, uninterrupted recovery of such a disk gives rest or the new key, by the side of COMMIT. |
| `Messages.CallTrip` | src/agent/message.c:249-355 | A tool call that is written and read back keeps its id, name and results; a missing id or name becomes empty and the arguments come back as printed JSON. |
| `Messages.MessageTripIdentity` | src/agent/message.c:249-355 | Role, content, ids, fork group and positive timestamps survive the trip; missing role and content become empty. |
| `Messages.MessageTripTools` | src/agent/message.c:249-355 | So do tool calls, tool name, error category, thinking, phase and provider state. |
| `Messages.SettledIsStable` | src/session/session.c:155-292 | What one trip makes of a message is changed by no further trip, and a message is unchanged by it exactly when it is such a message already. |
| `Messages.RoundTrip` | src/session/session.c:155-292 | Reading undoes writing if and only if the messages are of the kind that is ever read back, and only those are read back. |
| `Messages.MessagesToJsonArray` | src/agent/message.c:249-355 | The writing loop builds the array of the messages in their order. |
| `Messages.WrittenMessage` | src/agent/message.c:249-280 | The saved document has role, content, id, parent_id, fork_group_id and a positive timestamp under these names. |
| `Messages.WrittenExtras` | src/agent/message.c:249-355 | And thinking, phase, provider_state, tool_name, error_category, tool_call_id and tool_calls. |
| `Messages.WrittenCall` | src/agent/message.c:290-340 | A tool call has id, the type "function", its function and its results. |
| `Messages.WrittenFunction` | src/agent/message.c:290-340 | The function has the name, and the arguments as the JSON they parse to, or as text. |
| `Messages.WrittenKeys` | src/agent/message.c:249-355 | Nothing else is written. |
| `Branching.RotatedIsPermutation` | src/session/session_branch.c:522-630 | Bringing one chain to the front and sending the front to the end loses and repeats nothing. |
| `Branching.SwitchEnds` | src/session/session_branch.c:551-612 | The chain set aside reads back as it was live, and the fetched chain is live as it was stored. |
| `Branching.SwitchConserves` | src/session/session_branch.c:522-630 | A switch permutes the chains of the session: the multiset of (birth, messages) over the live chain and all records is unchanged. |
| `Branching.ForkConserves` | src/session/session_branch.c:338-479 | A fork keeps every record and the whole pre-fork chain up to the group and id stamped on the fork message, and adds exactly one chain: what came before the fork message, and the edited copy. |
| `Branching.SwitchKeepsStories` | src/session/session_branch.c:522-630 | Up to such stamps a switch changes no chain and no number of chains. |
| `Branching.ForkKeepsStories` | src/session/session_branch.c:338-479 | Up to such stamps a fork changes no chain and adds one. |
| `Branching.StepKeepsStories` | src/session/session_branch.c:482-630 | Any operation, refused or not, loses no chain; only a fork adds one. |
| `Branching.NoChainIsLost` | src/session/session_branch.c:482-630 | Over every run of forks and switches no chain is lost, and the number of chains grows by the number of forks. |
| `Branching.SwitchKeeps` | src/session/session_branch.c:522-630 | A switch moves every chain to a place of its own and changes none. |
| `Branching.ForkKeeps` | src/session/session_branch.c:338-479 | A fork keeps every chain at a place of its own and adds no more than an absent id or group to one message. |
| `Branching.NoChainIsChanged` | src/session/session_branch.c:482-630 | Over every run each chain stays, at a place of its own, with its birth and messages; all that a run adds to a message is an id or group where there was none. |
| `Branching.SwitchBack` | src/session/session_branch.c:522-630 | A switch that takes place and a switch to the record it set aside, named by an id no record had before, put the same chain, with its birth, back live and keep all chains. |
| `Branching.FindRecord` | src/session/session_branch.c:287-300 | The first record of an id, or none if no record has it. |
| `Branching.FindMessage` | src/session/session_branch.c:312-329 | The first message of an id, or none. |
| `Branching.ForkIndexIsPlace` | src/session/session_branch.c:312-329 | The fork place is the first message with the given id, whatever the index; the index itself if the id is not given or not found and it is in range; there is no other, and none otherwise. |
| `SessionBranches.Session.DeserializeMessages` | src/session/session.c:155-292 | Loading replaces the messages by what the array says; a document that is no array changes nothing. |
| `SessionBranches.Session.TruncateMessages` | src/session/session_branch.c:302-310 | The messages before the index stay, in place. |
| `SessionBranches.Session.SnapshotLive` | src/session/session_branch.c:261-284 | The live chain is appended as a record with its own birth time; no record is replaced. |
| `SessionBranches.Session.FindForkIndex` | src/session/session_branch.c:312-329 | The first message with the given id, whatever the index; if there is none, or no id, the index when it is in range; -1 otherwise. |
| `SessionBranches.WaitEnds` | src/session/session_branch.c:158-189 | The wait ends at the first reading past the live chain's birth, at the first that a failing sleep follows, or at the seventeenth. |
| `SessionBranches.Session.NextCreatedAt` | src/session/session_branch.c:158-189 | The birth time is the reading at which the wait ends: the first past the live chain's birth, the first before a failing sleep, or the last of seventeen. |
| `SessionBranches.BornLater` | src/session/session_branch.c:158-189 | When the sleeps go well the new chain is born strictly after the live one, if and only if one of the seventeen readings is past its birth. |
| `SessionBranches.Session.DoFork` | src/session/session_branch.c:338-447 | What the fork does to the session in place: stamp, snapshot, truncation, edited copy, new birth. |
| `SessionBranches.Session.FindRecordIndex` | src/session/session_branch.c:287-300 | The place of the first record of that id, or the end of the list. |
| `SessionBranches.Session.DoSwitch` | src/session/session_branch.c:559-612 | What the switch does to the session in place: live chain set aside, record loaded, its birth taken over, the record gone from the list. |
| `SessionBranches.SessionManager.ForkBranch` | src/session/session_branch.c:482-520 | The call succeeds if and only if the row loads, the fork place exists and the save works. The stored live chain is then the messages before the place, unchanged, and one copy of the message there with the new content; one record more holds the whole earlier chain; failure leaves the row alone. |
| `SessionBranches.SessionManager.SwitchBranch` | src/session/session_branch.c:522-630 | The call succeeds if and only if the row loads, a record has the id and the first such holds messages, and either these are live already or the save works. The record is then live with its birth, the earlier live chain is a record, all other records are as they were; failure leaves the row alone. |
| `BranchInfo.GroupChainCount` | src/session/session_branch_info.c:19-57 | One plus the records that carry the group, at most 64, with birth and id of each in list order in the two fixed tables. |
| `BranchInfo.Rank` | src/session/session_branch_info.c:93-134 | The active place is one plus the listed chains born earlier; the ids are the listed ones. |
| `BranchInfo.Collect` | src/session/session_branch_info.c:59-162 | One entry for each message of the live chain that carries a group, in order. |
| `BranchInfo.HitIffCarries` | src/session/session_branch_info.c:25-49 | A stored record counts for a group if and only if the chain it holds carries it. |
| `BranchInfo.HitsAreCarriers` | src/session/session_branch_info.c:19-57 | The records that count, and those born before a time, are as many as the chains that carry the group. |
| `BranchInfo.EntryCountsChains` | src/session/session_branch_info.c:77-119 | For a group on the live chain held by at most 64 records, count is the number of chains of the session that carry it, and active the live chain's rank by birth, from 1 to count. |
| `BranchInfo.EntryListsCarriers` | src/session/session_branch_info.c:59-162 | An entry names its message and lists the ids of exactly the records that carry the group, in list order, up to 64. |
| `BranchInfo.EntriesExact` | src/session/session_branch_info.c:77-153 | The view has one entry for each message of the live chain that carries a group, in the order of the chain, and no other. |
| `BranchInfo.ListedIsFound` | src/session/session_branch_info.c:105-134 | A switch finds every listed id, and what it finds carries the group if ids do not repeat. |
| `BranchInfo.CountAfterSwitch` | src/session/session_branch.c:570-623 | A switch that takes place changes no group's number of chains, and ranks the fetched chain as before. |
| `BranchInfo.RanksAreDistinct` | src/session/session_branch_info.c:93-103 | Two chains of a group with different births never show the same rank. |
| `BranchInfo.CountAfterFork` | src/session/session_branch.c:362-403 | Forking at a message that carries a group adds one chain to it; a newly minted group has two. |
| `BranchInfo.ViewAfterSwitching` | src/session/session_branch_info.c:59-162 | A switch to a record of the group never changes the count shown; it moves the active place if and only if the record is fetched at all, which it is not when it holds the messages that are live, and was born at another time. |
| `BranchInfo.SwitchToTwin` | src/session/session_branch.c:541-568 | The chain a fork set aside cannot be fetched if and only if the fork was at the last message, without other content, and the message had no id or the minted one; a switch to it then succeeds and changes nothing, although the births differ. |
| `BranchInfo.TwinOfOneMessage` | src/session/session_branch.c:541-568 | Such a case: a session of one message without id, forked there and switched back. |
| `BranchInfo.ViewAfterFork` | src/session/session_branch_info.c:59-162 | After forking at a message that carries the group the view shows one more. |
| `OAuthThreads.GenerationValue` | src/llm/oauth_vault.c:32-35 | The generation after n changes is (n - 1) mod (2^64 - 1) + 1: it never returns to 0. |
| `OAuthThreads.StaleGenerationExact` | src/llm/oauth_vault.c:32-35 | A captured generation is taken for the current one if and only if the number of changes since is a multiple of 2^64 - 1; fewer never go unnoticed. |
| `OAuthThreads.SameGeneration` | src/llm/oauth_vault.c:32-35 | Until the counter wraps, equal generations are the same generation. |
| `OAuthThreads.MoveKeeps` | src/llm/openai_oauth.c:365-473 | When a thread takes up a part that is free, the parts on record are still exactly the threads that play them. |
| `OAuthThreads.LeaveKeeps` | src/llm/openai_oauth.c:465-472 | When a thread returns, the parts on record are still exactly the threads that play them. |
| `OAuthManager.OpenAIOAuth.TokenEnter` | src/llm/openai_oauth.c:475-549 | Signed out, stopped or being destroyed: SignedOut at once. A rejected token that is no longer the one in memory: the one in memory at once. Not insisted on, nobody refreshing, more than 300 seconds left: the token at once. Otherwise the call waits for the refresh under way, or begins one. |
| `OAuthManager.OpenAIOAuth.RefreshWake` | src/llm/openai_oauth.c:371-389 | A waiter never goes to the network; a forced one returns on a new token version; one that finds itself stopped or signed out hands on the last result, even OK, without a token. |
| `OAuthManager.OpenAIOAuth.RefreshFinish` | src/llm/openai_oauth.c:430-473 | The outcome, memory and vault after an exchange: cancelled on a changed generation, committed only if the vault took it and then for the session that was attached when the refresh began, cleared only if the entry is gone. |
| `OAuthManager.OpenAIOAuth.PersistAndCommit` | src/llm/oauth_vault.c:164-187 | Memory takes new credentials only after the attached session's vault entry has. |
| `OAuthManager.OpenAIOAuth.DeleteAndClear` | src/llm/openai_oauth.c:452-463 | Memory forgets credentials only after the vault entry has gone, or if there is no session. |
| `OAuthManager.OpenAIOAuth.NewGeneration` | src/llm/oauth_vault.c:32-35 | Whoever started or polled for the previous generation no longer counts. |
| `OAuthManager.OpenAIOAuth.CancelCallback` | src/llm/oauth_callback.c:525-533 | A cancel opens a new generation, raises the stop flag and wipes the pending login. |
| `OAuthManager.OpenAIOAuth.StartReap` | src/llm/oauth_callback.c:564-577 | No login start while one is active, or while the manager is being destroyed or attached, logged out or cancelled. |
| `OAuthManager.OpenAIOAuth.StartBegin` | src/llm/openai_oauth.c:168-206 | A login start opens its own generation, replaces every pending secret and starts one server. If no server thread can be created the login is wiped again, but the new generation, the lowered stop flag and the loss of the earlier login's secrets stay. |
| `OAuthManager.OpenAIOAuth.StartReady` | src/llm/openai_oauth.c:207-224 | The start is ready exactly when the published code is 0; otherwise it raises the stop flag. |
| `OAuthManager.OpenAIOAuth.StartCleanup` | src/llm/openai_oauth.c:225-235 | A failed start wipes whatever login is pending by then. |
| `OAuthManager.OpenAIOAuth.CallbackPublish` | src/llm/oauth_callback.c:387-400 | A listener is published only for the current generation of a manager neither stopped nor being destroyed. |
| `OAuthManager.OpenAIOAuth.CallbackPublishFailure` | src/llm/oauth_callback.c:375-385 | A failure is published only to the start of the same generation. |
| `OAuthManager.OpenAIOAuth.CallbackState` | src/llm/oauth_callback.c:318-343 | A callback is accepted exactly for the pending state of the current generation, and then the secrets are gone. |
| `OAuthManager.OpenAIOAuth.CompleteTokens` | src/llm/oauth_callback.c:293-316 | Tokens of a login are committed exactly if its generation is current, nothing is stopped, a session is attached and storage succeeds. |
| `OAuthManager.OpenAIOAuth.CallbackRedeem` | src/llm/oauth_callback.c:344-351 | The callback server commits under the same conditions. |
| `OAuthManager.OpenAIOAuth.CallbackFinish` | src/llm/oauth_callback.c:402-416 | A server that ends touches the login only if it is still its own. |
| `OAuthManager.OpenAIOAuth.DeviceStartBegin` | src/llm/oauth_device.c:48-78 | A device start opens its own generation and joins the operations in flight. |
| `OAuthManager.OpenAIOAuth.DevicePublish` | src/llm/oauth_device.c:90-118 | A grant is kept exactly for the login under way; from then on the polling interval is the granted one. |
| `OAuthManager.OpenAIOAuth.DeviceStartFailed` | src/llm/oauth_device.c:25-38 | A failed device start wipes the login only if it is still its own. |
| `OAuthManager.OpenAIOAuth.ActiveOperationFinish` | src/llm/oauth_callback.c:556-562 | The count of operations goes down by one; it never stands at 0 here. |
| `OAuthManager.OpenAIOAuth.PollBegin` | src/llm/oauth_device.c:213-249 | A poll asks for a token exactly when its login is pollable and not expired, no poll is under way and the next one is due; then the next is due one interval later (section 3.5 of RFC 8628). |
| `OAuthManager.OpenAIOAuth.PollSlowDown` | src/llm/oauth_device.c:291-303 | A slow_down of the current generation adds five seconds to the interval, as far as 32 unsigned bits hold them, and counts from now. |
| `OAuthManager.OpenAIOAuth.PollReleased` | src/llm/oauth_device.c:204-211 | The right to poll goes back unless a newer login has it; the operation is no longer counted. |
| `OAuthManager.OpenAIOAuth.PollRedeem` | src/llm/oauth_device.c:320-330 | The device poll commits under the conditions of complete_callback_tokens. |
| `OAuthManager.OpenAIOAuth.PollFinished` | src/llm/oauth_device.c:187-202 | The end of a device login wipes it only if it is still the current one. |
| `OAuthManager.OpenAIOAuth.LifecycleBegin` | src/llm/openai_oauth.c:82-97 | One attach, logout or cancel at a time, each starting with a cancel; a cancel needs the id of the active login. |
| `OAuthManager.OpenAIOAuth.LogoutEnd` | src/llm/openai_oauth.c:571-587 | Credentials are forgotten exactly if their vault entry was deleted. |
| `OAuthManager.OpenAIOAuth.CancelEnd` | src/llm/openai_oauth.c:335-346 | A finished cancel leaves no login id and lowers the stop flag. |
| `OAuthManager.OpenAIOAuth.AttachDetach` | src/llm/openai_oauth.c:103-112 | The old session and its credentials go before the new session is read. |
| `OAuthManager.OpenAIOAuth.AttachRead` | src/llm/openai_oauth.c:114-122 | What attach reads is what the target's entry holds: a missing entry is no credentials, an unreadable one an error. |
| `OAuthManager.OpenAIOAuth.AttachCommit` | src/llm/openai_oauth.c:127-145 | The new session is installed with exactly the credentials read, unless the manager is being destroyed. |
| `OAuthManager.OpenAIOAuth.DestroyBegin` | src/llm/openai_oauth.c:56-66 | Destroying cancels the login and every operation of the current generation. |
| `OAuthManager.OpenAIOAuth.DestroyEnd` | src/llm/openai_oauth.c:67-80 | When the manager is freed, after the wait or because the wait failed, it holds no session, credentials or login. |
| `OAuthManager.OpenAIOAuth.Run` | src/llm/openai_oauth.c:56-587 | Every interleaving of critical sections of any number of threads, with arbitrary network, storage and clock, keeps the invariant: memory mirrors the vault; the flags tell who is at work; until the generation wraps, no commit comes from an operation that captured its generation before a cancel or a start; every commit was for the session attached when its generation began or the one an attach under way then was going to, and no session changes under a refresh; token requests come in the order of logins and times, those of one login spaced by its interval, the granted one plus five for every slow_down. |
| `OAuthManager.PollAsked` | src/llm/oauth_device.c:238-248 | Taking the right to poll when the next poll is due keeps the spacing of requests and the one-poll rule. |
| `OAuthManager.OpenAIOAuth.RequestsApart` | src/llm/oauth_device.c:213-303 | Until the generation wraps, any two token requests of one login are at least the interval apart that was in force at the later one (section 3.5 of RFC 8628). |
| `OAuthManager.SlowedDown` | src/llm/oauth_device.c:295-301 | Five seconds more on the interval, counted from now, keep the polling rules. |
| `OAuthManager.OpenAIOAuth.SingleFlight` | src/llm/openai_oauth.c:371-412 | Never two threads in the refresh exchange, and refresh_in_progress exactly when there is one. |
| `OAuthManager.OpenAIOAuth.ExactAccounting` | src/llm/oauth_callback.c:556-562 | active_operations is the number of device calls in flight. |
| `OAuthManager.OpenAIOAuth.QuietMeansAlone` | src/llm/openai_oauth.c:105-108 | Past a wait of attach, logout, cancel or destroy that did not fail, nobody is in a refresh exchange or a device call. |
| `OAuthManager.OpenAIOAuth.OnePoll` | src/llm/oauth_device.c:233-248 | Until the generation wraps, at most one poll of the current login is in flight. |
| `OAuthManager.OpenAIOAuth.StoredWhereBegun` | src/llm/openai_oauth.c:168-206 | Until the generation wraps, tokens of a login or refresh are stored only for the session that was attached when its generation began, unless an attach was under way at that moment; then also for the session that attach was going to. |
| `OAuthManager.OpenAIOAuth.StoredElsewhere` | src/llm/openai_oauth.c:168-206 | The exception is real: for all sessions a and b there is a run in which a login begins with a attached, while an attach of b is under way, and its tokens are stored for b. |
| `LineFraming.SplitJoins` | src/llm/openai_compatible_stream.c:144-176 | Lines and unfinished rest, put together with newlines, are the bytes, and none of them holds a newline. |
| `LineFraming.SplitUnique` | src/llm/openai_compatible_stream.c:144-176 | There is no other way to cut the bytes. |
| `LineFraming.LinesGrow` | src/llm/openai_compatible_stream.c:144-176 | More bytes add lines and change none. |
| `LineFraming.CStringEnds` | src/llm/openai_compatible_stream.c:159-167 | What C reads from the buffer ends at the terminator, whatever an earlier line left behind it. |
| `ThinkingBlocks.CloseFaithful` | src/llm/openai_compatible_stream.c:197-204 | Closing leaves no block open and keeps the markers in order. |
| `ThinkingBlocks.ThinkFaithful` | src/llm/openai_compatible_stream.c:37-52 | Reasoning stays between markers. |
| `ThinkingBlocks.SayFaithful` | src/llm/openai_compatible_stream.c:85-106 | Answers stay outside them. |
| `CompatibleReply.BlocksEndClosed` | src/llm/openai_compatible_stream.c:178-206 | On every successful stream the inserted markers strictly alternate and end closed, and the content is the concatenation of the chunks given to the callback. |
| `CompatibleReply.StreamToolCalls` | src/llm/openai_compatible_stream.c:108-138 | On every successful stream, however the deltas of several calls are interleaved within and over its events, slot i holds what the deltas with index i of the whole stream add up to, and there are exactly as many slots as the deltas ask for. |
| `CompatibleReply.FoldToolsConcat` | src/llm/openai_compatible_stream.c:108-138 | Folding the deltas of one event after those of another is folding them all. |
| `CompatibleReply.ToolCallsApart` | src/llm/openai_compatible_stream.c:108-138 | Folding a list of deltas into no calls gives each slot what its own deltas add up to; the fold fails exactly on a negative index. |
| `CompatibleReply.FailureStays` | src/llm/openai_compatible_stream.c:144-176 | No later line undoes a failure. |
| `CompatibleText.ParseExact` | src/llm/openai_compatible_stream.c:54-206 | A stream is parsed if and only if each of its payloads is an event that can be read and no tool call has a negative index. |
| `CompatibleText.TextOfStream` | src/llm/openai_compatible_stream.c:37-106 | On every successful stream the callback got exactly the texts of the events, thoughts between markers and answers outside, in order, and the content is that text. |
| `CompatibleText.CallsOfStream` | src/llm/openai_compatible_stream.c:108-138 | Each slot is, field by field, the pieces with its index glued together, whatever came in between. |
| `CompatibleText.AssembledIsGlued` | src/llm/openai_compatible_stream.c:108-138 | What deltas add up to is each field's pieces in order; a field no delta names stays NULL. |
| `CompatibleText.PrintedStream` | src/llm/openai_compatible_stream.c:54-176 | Printed lines are read back: the payloads of a stream are the texts of its "data: " lines in order, but for "[DONE]", whether or not lines end in a carriage return and the last one in a newline. |
| `CompatibleStream.StreamParser.EnsureToolCall` | src/llm/openai_compatible_stream.c:22-35 | Slots up to the index exist, the new ones empty; a negative index is refused. |
| `CompatibleStream.StreamParser.ApplyTools` | src/llm/openai_compatible_stream.c:108-138 | The loop over the tool-call deltas is the specified fold. |
| `CompatibleStream.StreamParser.ForwardReasoning` | src/llm/openai_compatible_stream.c:37-52 | Reasoning is delivered with an opening marker if none is open. |
| `CompatibleStream.StreamParser.ParseEvent` | src/llm/openai_compatible_stream.c:54-142 | One event changes the response as specified, or fails. |
| `CompatibleStream.StreamParser.EnsureRoom` | src/llm/openai_compatible_stream.c:146-155 | The growing buffer keeps what it holds and has room for a byte and a terminator. |
| `CompatibleStream.StreamParser.HandleLine` | src/llm/openai_compatible_stream.c:159-173 | A line loses one carriage return and is parsed if it is a data line. |
| `CompatibleStream.StreamParser.Feed` | src/llm/openai_compatible_stream.c:144-176 | Feeding succeeds exactly if all bytes so far mean a reply, and then holds that reply and the unfinished line. |
| `CompatibleStream.StreamParser.Finish` | src/llm/openai_compatible_stream.c:178-206 | Finishing gives the meaning of the whole stream, or fails when it has none. |
| `CompatibleStream.ParseFragments` | src/llm/openai_compatible_stream.c:238-275 | Cutting does not matter: any fragments give what the whole stream means. |
| `CodexCalls.FindCall` | src/llm/openai_stream.c:37-55 | With distinct keys, any of a call's keys leads to its own slot, and a call not yet announced is not found. |
| `CodexCalls.ItemIsFound` | src/llm/openai_stream.c:37-135 | An item that is taken leads, by any of its keys, to the one call it filled in or made. |
| `CodexCalls.ItemKeepsNames` | src/llm/openai_stream.c:104-135 | Whatever keys led to a call still lead to it after an item, or to the earlier call that the item now names by them. |
| `CodexCalls.Reassembles` | src/llm/openai_stream.c:57-182 | Every interleaving of announcements, deltas and done events of calls with distinct keys gives one entry per call, in order of announcement, with the arguments that the events of that call alone add up to. |
| `CodexCalls.PiecesInOrder` | src/llm/openai_stream.c:156-182 | Arguments that arrive only in pieces are the pieces in their order. |
| `CodexCalls.DoneHolds` | src/llm/openai_stream.c:156-182 | A done event has the last word: later items that repeat its arguments, as output_item.done and the completed response do, or leave them out, change nothing. |
| `CodexCalls.ContradictionRefused` | src/llm/openai_stream.c:104-135 | An item that names a call by its call id and contradicts its index, its name or its item id is refused. |
| `CodexCalls.EarlyArguments` | src/llm/openai_stream.c:156-182 | Arguments that come before their call is announced, under its index or item id, wait for it and are its arguments. |
| `CodexReply.ParseIsFold` | src/llm/openai_stream.c:476-571 | A stream means the fold of the events that its data lines gather, then the verdict, and nothing else. |
| `CodexReply.MergeHolds` | src/llm/openai_stream.c:184-238 | Merging the output of the completed response says each of its calls again, under its own position, and mixes up none. |
| `CodexReply.CallsOfStream` | src/llm/openai_stream.c:359-474 | Reassembly for lists of events: announcements, deltas, done values and repetitions of calls interleaved with text, summaries, reasoning, messages, refusals, the completed response with its output, failures and unknown events. |
| `CodexReply.ToolCallsOfStream` | src/llm/openai_stream.c:359-571 | For a stream within the limits whose events are such a list: parsing succeeds if and only if the response is completed, nothing fails and every announced call has a name; the reply then has one entry per announced call, in order, with the arguments that its own events add up to. |
| `CodexReply.GoodReplies` | src/llm/openai_stream.c:552-571 | A successful stream was completed and did not fail, its calls have ids and names, its markers alternate and end closed, and its content is what the callback got. |
| `CodexReply.TailGoesOn` | src/llm/openai_stream.c:507-538 | An unfinished line goes on, or starts the next complete one. |
| `CodexReply.RefusalStays` | src/llm/openai_stream.c:507-538 | Once the bytes so far are refused, for a limit, a NUL or an event, no further bytes are accepted. |
| `CodexText.TextOfStream` | src/llm/openai_stream.c:273-474 | On every successful stream the chunks given to the callback are exactly those the events show: the text of every delta as an answer, every summary as a thought, a done summary only without deltas, an item's own summary only when nothing is open; the content is their text, phase and reasoning are the last ones the events give. |
| `CodexText.SuccessMeans` | src/llm/openai_stream.c:359-571 | A successful stream is within 32 MiB, every data is a well-formed event or the end mark, the response is completed and nothing fails. |
| `CodexText.MergedPhase` | src/llm/openai_stream.c:144-238 | Merging an output takes the last phase that its messages name. |
| `CodexText.StripDropsMarks` | src/llm/openai_stream.c:326-347 | Stripping drops exactly the comment markers and keeps the words between them. |
| `CodexFraming.PrintedEvents` | src/llm/openai_stream.c:476-538 | Printed events are read back: data lines of an event joined by newlines, blank lines between events, comments and other fields ignored, carriage returns dropped, the last event with or without its blank line. |
| `CodexFraming.DatasWithinLimits` | src/llm/openai_stream.c:507-538 | Nothing is gathered from more than 32 MiB, from a line of more than 4 MiB or with a NUL, and no event has more than 4 MiB of data. |
| `CodexStream.HasPart` | src/llm/openai_stream.c:329 | The test for comment markers is exact. |
| `CodexStream.StripInPlace` | src/llm/openai_stream.c:333-347 | Comment markers are dropped in place, the write position never passing the read position. |
| `CodexStream.JoinSummary` | src/llm/openai_stream.c:296-324 | The non-empty summary parts with a newline between them. |
| `CodexStream.StreamParser.FindStreamCall` | src/llm/openai_stream.c:48-55 | The first binding that matches any of the keys. |
| `CodexStream.StreamParser.AddResponseToolCall` | src/llm/openai_response.c:377-420 | One new last slot with the given texts, missing ones empty, unless the count is at its limit. |
| `CodexStream.StreamParser.AddStreamCall` | src/llm/openai_stream.c:57-90 | A new slot and the binding of its keys. |
| `CodexStream.StreamParser.UpsertFunctionItem` | src/llm/openai_stream.c:104-135 | An item fills in the call that it names or makes a new one; contradicting a key or the name is an error. |
| `CodexStream.StreamParser.ParseArgumentDelta` | src/llm/openai_stream.c:156-182 | A delta is appended to the named call, a done value replaces its arguments. |
| `CodexStream.StreamParser.MergeCompletedOutput` | src/llm/openai_stream.c:184-238 | The completed response fills in calls by position, the phase, and the reasoning items if there are any. |
| `CodexStream.StreamParser.EmitSummaryText` | src/llm/openai_stream.c:326-357 | A summary is delivered as reasoning without comment markers, and not at all if only white space is left. |
| `CodexStream.StreamParser.HandleEvent` | src/llm/openai_stream.c:359-474 | One event changes the response as specified, or fails. |
| `CodexStream.StreamParser.ProcessEvent` | src/llm/openai_stream.c:476-487 | The gathered data is one event, or the end mark, and is then gone. |
| `CodexStream.StreamParser.ProcessLine` | src/llm/openai_stream.c:489-505 | A blank line dispatches, a data line adds to the data within its limit, others are ignored. |
| `CodexStream.StreamParser.EnsureRoom` | src/llm/openai_stream.c:519-529 | The buffer grows to at most the line limit plus one and always has room: the third test never fails. |
| `CodexStream.StreamParser.Feed` | src/llm/openai_stream.c:507-538 | Feeding succeeds exactly if the bytes so far are acceptable, with total, line and NUL limits. |
| `CodexStream.StreamParser.StreamCallsComplete` | src/llm/openai_stream.c:540-550 | True exactly if every call has an id and a name. |
| `CodexStream.StreamParser.Finish` | src/llm/openai_stream.c:552-571 | Finishing gives the meaning of the whole stream, or fails when it has none. |
| `CodexStream.ParseFragments` | src/llm/openai_stream.c:507-571 | Cutting does not matter: any fragments, of any total size, give the success or failure and the response of the whole. |
| `OAuthCodec.UrlRoundTrip` | src/llm/oauth_codec.c:39-61 | Decoding undoes encoding if and only if the value is not empty and holds no control bytes; anything else is refused (section 2.1 of RFC 3986). |
| `OAuthCodec.Base64RoundTrip` | src/llm/oauth_codec.c:63-85 | Decoding undoes encoding on every non-empty input whose encoding is within 256 KiB, and refuses the others (section 5 of RFC 4648). |
| `OAuthCodec.UrlEncode` | src/llm/oauth_codec.c:39-61 | The encoder writes the specified text into three bytes for each byte. |
| `OAuthCodec.UrlDecodeExact` | src/llm/oauth_codec.c:153-187 | The decoder accepts exactly the well-formed values and writes no more than it reads. |
| `OAuthCodec.Base64UrlEncode` | src/llm/oauth_codec.c:63-85 | The encoder writes the specified text within its buffer. |
| `OAuthCodec.Base64UrlDecode` | src/llm/oauth_codec.c:199-231 | The decoder accepts exactly the specified texts, and its buffer is as long as what it decodes. |
| `OAuthCodec.GroupRoundTrip` | src/llm/oauth_codec.c:72-82 | Up to three bytes survive the shifts and masks of a group. |
| `OAuthText.EncodedExact` | src/llm/oauth_codec.c:33-61 | The encoded text is, byte by byte, the byte itself if it is a letter, a digit or one of "-._~", and otherwise a percent sign and two upper-case hexadecimal digits. |
| `OAuthText.DecodedExact` | src/llm/oauth_codec.c:145-187 | A value is decoded if and only if it is not empty and written byte by byte in one of the three ways: as it is, a plus sign for a space, a percent sign and two digits of either case; and what it means holds no control byte. |
| `OAuthText.DigitTaken` | src/llm/oauth_codec.c:189-197 | A character is a digit if and only if it is in the table of section 5 of RFC 4648, and its value is its place there. |
| `OAuthText.DigitInTable` | src/llm/oauth_codec.c:63-85 | The digit written for a value is the character at that place of the table. |
| `OAuthText.GroupExact` | src/llm/oauth_codec.c:69-83 | Up to three bytes become the digits of the same number, zero bits filling the last digit. |
| `OAuthText.UngroupExact` | src/llm/oauth_codec.c:199-231 | Two to four digits are read as a number, and the bits that fill no byte are dropped. |
| `OAuthText.EncodedInGroups` | src/llm/oauth_codec.c:69-83 | Data is encoded three bytes at a time, in order. |
| `OAuthText.DecodedInGroups` | src/llm/oauth_codec.c:199-231 | Text is decoded four digits at a time, in order, and one refused group refuses it all. |
| `OAuthText.AcceptedExactly` | src/llm/oauth_codec.c:199-231 | A text is accepted if and only if it is not empty, not one digit over, at most 256 KiB long and all of it is in the table. |
| `OAuthQuery.ParseCallbackQuery` | src/llm/oauth_callback.c:133-178 | The parser accepts exactly the queries of at most sixteen well-formed fields with distinct names, a state and either a code or an error. |
| `OAuthQuery.SetField` | src/llm/oauth_callback.c:113-123 | A repeated name is refused; code, state and error are kept. |
| `OAuthQuery.FieldsRoundTrip` | src/llm/oauth_callback.c:133-178 | Printed fields are read back in order, if there is room for them. |
| `OAuthQuery.QueryRoundTrip` | src/llm/oauth_callback.c:133-178 | A printed query is read back if and only if it has at most sixteen fields, distinct names, a state, and either a code or an error. |
| `OAuthText.PartExact` | src/llm/oauth_callback.c:144-154 | A part is a field if and only if it has an equals sign with a decodable value on both sides of the first one. |
| `OAuthText.HasParts` | src/llm/oauth_callback.c:140-169 | Every query is parts without ampersands, joined by them. |
| `OAuthText.QueryExact` | src/llm/oauth_callback.c:133-178 | Any query is accepted if and only if it has at most sixteen parts, each of them a field, with distinct names, a state and either a code or an error; the callback holds the values of the fields called "code", "state" and "error". |
| `ContextTrim.TrimMessagesByTokens` | src/agent/context.c:286-361 | The trimmed array is the specified selection in the original order; every write is within its exact size. |
| `ContextTrim.KeepRecent` | src/agent/context.c:309-324 | The budget loop keeps exactly the system messages and the recent run. |
| `ContextTrim.KeepAssistants` | src/agent/context.c:326-335 | At most the assistant message just before the run is added; a dropped tool result after a kept assistant message never occurs. |
| `ContextTrim.RunFits` | src/agent/context.c:309-324 | The recent run fits the budget. |
| `ContextTrim.RunIsLongest` | src/agent/context.c:309-324 | With the message before it, it would not. |
| `ContextTrim.SelectIsSubsequence` | src/agent/context.c:347-355 | The result is an order-preserving subsequence that holds exactly the kept messages. |
| `ContextTrim.TrimmingKeeps` | src/agent/context.c:286-361 | Every system message stays, kept tokens are at most the budget plus one rescued assistant message, and no kept tool message loses the assistant message just before it. |
| `ContextTrim.TrimmedExact` | src/agent/context.c:286-361 | A conversation within the budget comes back whole. Otherwise the result is the system messages and everything from the place from which the rest fits and with one message more would not, and the assistant message just before it when a tool result begins the rest; a message costs a quarter of its text's length and one more. |
| `HttpRequest.HeadStays` | src/server/http_parse.c:75-79 | A head once found stays found; one that appears later ends in the new bytes. |
| `HttpRequest.VerdictStays` | src/server/http_parse.c:68-143 | A verdict once given stays, whatever follows. |
| `HttpRequest.ChunksDoNotMatter` | src/server/http_parse.c:68-143 | The first verdict on chunks is the verdict on the whole. |
| `HttpRequest.BodyIsExact` | src/server/http_parse.c:130-142 | The body has the length announced, at most 10485760, and follows the head at once; head, method, path and query are within their buffers of 4096, 16, 1024 and 512 bytes (section 6.3 of RFC 9112). |
| `HttpRequest.RequestLineRoundTrip` | src/server/http_parse.c:82-117 | Method, path and query of a printed request line come out as they went in, with or without a query, if and only if they fit; otherwise the request is refused. |
| `HttpPrint.LengthOfExact` | src/server/http_parse.c:37-51 | A Content-Length value is accepted if and only if it is the decimal digits of a number up to 10485760, leading zeros allowed, between blanks. |
| `HttpPrint.LineSays` | src/server/http_parse.c:27-62 | What one line says: a Content-Length in any case of letters its number or refusal, a Transfer-Encoding refusal, any other nothing. |
| `HttpPrint.HeadFound` | src/server/http_parse.c:75-79 | The head of a printed request ends at its first blank line, whatever the body holds. |
| `HttpPrint.HeadAnnounces` | src/server/http_parse.c:18-66 | A printed head has a length unless it has two Content-Length lines, a bad number or a Transfer-Encoding; it is 0 without such a line. |
| `HttpPrint.RequestRoundTrip` | src/server/http_parse.c:68-143 | Any printed request, with any fields in any order: refused if a part is too long or a field objectionable; otherwise exactly the announced number of bytes after the head is the body, with fewer there is more to come. |
| `HttpPrint.FewSpacesRefused` | src/server/http_parse.c:82-100 | A request line without two spaces is refused. |
| `HttpPrint.NoHeadYet` | src/server/http_parse.c:75-81 | Until a blank line comes there is more to come, up to 16384 bytes; beyond, the request is refused. |
| `HttpParse.ReadLength` | src/server/http_parse.c:37-51 | The digits between blanks are read to their decimal value without overflow; anything else or too much is refused. |
| `HttpParse.FindLineEnd` | src/server/http_parse.c:27-30 | The first line end from here on, or the last byte. |
| `HttpParse.ParseContentLength` | src/server/http_parse.c:18-66 | At most one Content-Length, no Transfer-Encoding, names read up to case. |
| `HttpParse.Client.Append` | src/server/http_parse.c:145-167 | The buffer holds all bytes and a terminator, up to its limit; beyond it nothing changes. |
| `HttpParse.Client.Parse` | src/server/http_parse.c:68-143 | The verdict on all bytes so far, the head read once and kept, the body copied when it is complete. |
| `HttpParse.SplitHead` | src/server/http_parse.c:82-127 | The request line is cut as specified, each part within its buffer. |
| `HttpParse.ParseChunks` | src/server/server.c:446-468 | Append, parse, stop at the first verdict or when the buffer is full: whatever the chunks, a stream of up to 10502144 bytes gets the verdict and fields that it gets in one piece, and a longer one is refused unless a verdict came before. |
| `ChangeTracker.Tracker.TakeSnapshot` | src/change_tracker/change_tracker.c:56-109 | The newest 64 snapshots are kept, the oldest dropped, the redo history gone. |
| `ChangeTracker.Tracker.UndoOne` | src/change_tracker/change_tracker.c:111-182 | The file gets its earlier contents and what it held goes to the redo stack; a failed write consumes nothing; the eviction branch is dead. |
| `ChangeTracker.Tracker.RedoOne` | src/change_tracker/change_tracker.c:184-219 | The mirror image, with its eviction branch dead as well. |
| `ChangeTracker.AlwaysBalanced` | src/change_tracker/change_tracker.c:56-219 | In every run, with every failure, undo and redo stacks together hold at most 64 entries. |
| `ChangeTracker.UndosRedos` | src/change_tracker/change_tracker.c:111-219 | k undos followed by k redos leave the touched files cut at their first NUL and all others alone, and both stacks as long as before. |
| `ChangeTracker.UndosRedosExact` | src/change_tracker/change_tracker.c:111-219 | They give every file back if and only if each touched file existed and held no NUL. |
| `ChangeTracker.SnapshotUndo` | src/change_tracker/change_tracker.c:56-182 | Undoing right after an edit brings back what the snapshot saw, NULs included. |
| `ChangeTracker.SnapshotKeepsNewest` | src/change_tracker/change_tracker.c:56-109 | A snapshot of an existing file goes on the stack, which keeps the newest 64, and clears the redo history; a missing file changes nothing. |
| `ChangeTracker.StackIsNewest` | src/change_tracker/change_tracker.c:56-109 | Over every run of snapshots and edits the undo stack is the newest 64 snapshots taken, in order. |
| `ChangeTracker.UndosRestore` | src/change_tracker/change_tracker.c:111-182 | After k undos every path that the newest k entries name has the contents of the oldest of these; other files are left alone. |
| `ChangeTracker.KeptForRedo` | src/change_tracker/change_tracker.c:128-150 | What an undo keeps of the file for the redo is all of it up to its first NUL; a missing file is kept as empty. |
| `ChangeTracker.UndoWorks` | src/change_tracker/change_tracker.c:111-182 | An undo moves one entry from the undo to the redo stack and writes its contents. |
| `ChangeTracker.RedoWorks` | src/change_tracker/change_tracker.c:184-219 | A redo moves it back. |
| `ChangeTracker.FailuresKeepStacks` | src/change_tracker/change_tracker.c:111-219 | An undo or redo that cannot write leaves both stacks alone; what it wrote before failing is in the file. |

## Left out

- Cryptography (scrypt, AES, HMAC, random bytes): idealised as injective keys and sealed pairs; the pepper file never changes and is part of the key.
- SQLite: transactions are atomic and a failing COMMIT has no effect; the text of a column stands for its parsed document, which saving prints again, and a NULL title for an empty one; rows are known by position because ids are primary keys.
- File system: rename, unlink and the exclusive creation of salt, verifier and marker are atomic and ordered, and looking whether a file exists is exact.
- Allocation failures, in every part; so fork's output copies, which can fail after its save has committed, are not modelled.
- Migration.SessionManager.CrashDuringChange: the recovered state is promised outside the abandoned-verifier family only, because there the code does not reach it; `Recovery.UndoRestartExact` gives the exact condition.
- OAuthManager.OpenAIOAuth.Run: safety only. A login start may wait for ever when it is cancelled before its server publishes, refresh waiters may outlive the manager, and so may anybody after a destroy whose wait failed; a run ends when the manager is freed, and nothing is claimed about any of these.
- OAuth manager: failures of the mutex and of time(), sockets, and the last_error text are not modelled; joins are not waited for, which allows more orders than the program has; a failed save or delete leaves the vault entry as it was; access and refresh token are always set and cleared together; the printed form of stored credentials is not modelled.
- OAuthManager.OpenAIOAuth.PollSlowDown: a time() that fails there would leave the old due time with the longer interval; the clock is taken to answer.
- JSON text: parsing is a parameter of the stream parsers and lossless in the branching part; repeated and reordered members of an object are not modelled, nor that cJSON finds some members whatever the case of their names.
- Branching.NoChainIsLost: times are numbers in the order strcmp gives their texts, and ids come from the caller; tagging and adding messages outside forks is not modelled.
- CodexReply.ApplyEvent: the limit on the size of the stored reasoning list, read back before an item is added, is not modelled.
- CompatibleStream.StreamParser.EnsureToolCall: sizes near SIZE_MAX and the largest int index are allocation failures and left out.
- ContextTrim.TrimMessagesByTokens: token sums are unbounded, so overflow of int is not modelled; smart_select_alloc and apply_context_window are left out, because a count there need not match its array.
- HttpParse.Client.Append: buffer sizes near SIZE_MAX are unreachable below the limit and left out.
- ChangeTracker.Tracker.UndoOne: a file that exists but cannot be read counts as missing contents only through its absence; partial reads are not modelled.
- Undoing after a redo does not give back the contents before the edit: redo moves the contents after the edit to the undo stack, so no such property is claimed.
- The order of branch ids by creation is not claimed: the code lists records in list order, and switching permutes it.
- Frontend, routes, terminal interface, curl, libuv, websockets, configuration, prompts, provider tables, safety lists, session listing: not part of this model.
