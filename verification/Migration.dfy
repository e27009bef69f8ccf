/**
 The password migration itself: one system call, BEGIN or COMMIT at a time. Every
 mutating step may fail without effect, and the process may die after any of them:
 `history` collects the disks a crash could leave. Looking whether a file exists is
 exact; failing reads, syncs and derivations are attempts that may go wrong.
 */
module Migration {
  import opened Wrappers
  import opened Vault
  import opened Recovery

  class SessionManager {
    var disk: Disk              // files and committed database
    var tx: Option<Database>    // the image an open transaction has built
    var encKey: Key
    var history: seq<Disk>      // the disk after every step: what a crash could leave
    ghost var failures: nat

    // ----- atomic steps -----

    /** A step that changes nothing on disk: a sync, a read, a key derivation, an encryption. */
    method Attempt() returns (ok: bool)
      modifies this`failures
      ensures if ok then failures == old(failures) else failures == old(failures) + 1
    {
      ok := *;
      if !ok { failures := failures + 1; }
    }

    /** A step that brings the disk to `next` in one go, or fails and leaves it alone. */
    method Apply(next: Disk) returns (ok: bool)
      modifies this`failures, this`disk, this`history
      ensures ok ==> failures == old(failures) && disk == next
      ensures !ok ==> failures == old(failures) + 1 && disk == old(disk)
      ensures history == old(history) + [disk]
    {
      ok := Attempt();
      if ok { disk := next; }
      history := history + [disk];
    }

    method CreateMarker() returns (ok: bool)
      modifies this`failures, this`disk, this`history
      ensures old(disk).marker ==> !ok && disk == old(disk) && failures == old(failures) && history == old(history)
      ensures !old(disk).marker ==>
                && (if ok then disk == old(disk).(marker := true) && failures == old(failures)
                    else disk == old(disk) && failures > old(failures))
                && history == old(history) + [disk]
    {
      if disk.marker { return false; }
      ok := Apply(disk.(marker := true));
    }

    /** rename(2): a missing source is an error. */
    method RenameSaltToOld() returns (ok: bool)
      modifies this`failures, this`disk, this`history
      ensures old(disk).salt.None? ==> !ok
      ensures if ok then disk == old(disk).(saltOld := old(disk).salt, salt := None) && failures == old(failures)
              else disk == old(disk) && (old(disk).salt.None? || failures > old(failures))
      ensures failures >= old(failures) && old(history) <= history
      ensures forall i | old(|history|) <= i < |history| :: history[i] == disk
    {
      if disk.salt.None? { return false; }
      ok := Apply(disk.(saltOld := disk.salt, salt := None));
    }

    method RenameOldToSalt() returns (ok: bool)
      modifies this`failures, this`disk, this`history
      ensures old(disk).saltOld.None? ==> !ok
      ensures if ok then disk == old(disk).(salt := old(disk).saltOld, saltOld := None) && failures == old(failures)
              else disk == old(disk) && (old(disk).saltOld.None? || failures > old(failures))
      ensures failures >= old(failures) && old(history) <= history
      ensures forall i | old(|history|) <= i < |history| :: history[i] == disk
    {
      if disk.saltOld.None? { return false; }
      ok := Apply(disk.(salt := disk.saltOld, saltOld := None));
    }

    method ActivateVerifier() returns (ok: bool)
      requires disk.verifierNew.Some?
      modifies this`failures, this`disk, this`history
      ensures if ok then disk == old(disk).(verifier := old(disk).verifierNew, verifierNew := None)
          && failures == old(failures)
              else disk == old(disk) && failures > old(failures)
      ensures history == old(history) + [disk]
    {
      ok := Apply(disk.(verifier := disk.verifierNew, verifierNew := None));
    }

    /** Exclusive creation: an existing file is an error. */
    method CreateSalt(salt: Salt) returns (ok: bool)
      modifies this`failures, this`disk, this`history
      ensures ok ==> old(disk).salt.None?
      ensures if ok then disk == old(disk).(salt := Some(salt)) && failures == old(failures)
              else disk == old(disk) && (old(disk).salt.Some? || failures > old(failures))
      ensures failures >= old(failures) && old(history) <= history
      ensures forall i | old(|history|) <= i < |history| :: history[i] == disk
    {
      if disk.salt.Some? { return false; }
      ok := Apply(disk.(salt := Some(salt)));
    }

    method CreateVerifierNew(key: Key) returns (ok: bool)
      modifies this`failures, this`disk, this`history
      ensures ok ==> old(disk).verifierNew.None?
      ensures if ok then disk == old(disk).(verifierNew := Some(key)) && failures == old(failures)
              else disk == old(disk) && (old(disk).verifierNew.Some? || failures > old(failures))
      ensures failures >= old(failures) && old(history) <= history
      ensures forall i | old(|history|) <= i < |history| :: history[i] == disk
    {
      if disk.verifierNew.Some? { return false; }
      ok := Apply(disk.(verifierNew := Some(key)));
    }

    /** remove_if_exists on the three artifacts. */
    method RemoveVerifierNew() returns (ok: bool)
      modifies this`failures, this`disk, this`history
      ensures if ok then disk == old(disk).(verifierNew := None) && failures == old(failures)
              else disk == old(disk) && failures > old(failures)
      ensures history == old(history) + [disk]
    {
      ok := Apply(disk.(verifierNew := None));
    }

    method RemoveSaltOld() returns (ok: bool)
      modifies this`failures, this`disk, this`history
      ensures if ok then disk == old(disk).(saltOld := None) && failures == old(failures)
              else disk == old(disk) && failures > old(failures)
      ensures history == old(history) + [disk]
    {
      ok := Apply(disk.(saltOld := None));
    }

    method RemoveMarker() returns (ok: bool)
      modifies this`failures, this`disk, this`history
      ensures if ok then disk == old(disk).(marker := false) && failures == old(failures)
              else disk == old(disk) && failures > old(failures)
      ensures history == old(history) + [disk]
    {
      ok := Apply(disk.(marker := false));
    }

    /** COMMIT makes the transaction's image the database in one step. */
    method Commit() returns (ok: bool)
      requires tx.Some?
      modifies this`failures, this`disk, this`history, this`tx
      ensures if ok then disk == old(disk).(db := old(tx)) && tx.None? && failures == old(failures)
              else disk == old(disk) && tx == old(tx) && failures > old(failures)
      ensures history == old(history) + [disk]
    {
      ok := Apply(disk.(db := tx));
      if ok { tx := None; }
    }

    // ----- recovery -----

    /** restore_old_files: a failed rename still lets the new verifier be dropped, but keeps the marker. */
    method RestoreOldFiles() returns (ok: bool)
      modifies this`failures, this`disk, this`history
      ensures failures >= old(failures) && old(history) <= history
      ensures old(disk).saltOld.Some? && old(disk).marker ==>
                && (failures == old(failures) <==> ok)
                && (ok ==> disk == UndoSteps(old(disk))[2])
      ensures old(disk).saltOld.None? ==> !ok
      ensures Undoing(old(disk), disk)
      ensures forall i | old(|history|) <= i < |history| :: Undoing(old(disk), history[i])
    {
      var renamed := RenameOldToSalt();
      var removed := RemoveVerifierNew();
      if !renamed || !removed { return false; }
      ok := RemoveMarker();
      if ok { ok := Attempt(); }
    }

    /** migration_finalize_recovery */
    method FinalizeRecovery(committed: bool) returns (ok: bool)
      requires disk.salt.Some? && disk.marker
      modifies this`failures, this`disk, this`history
      ensures failures >= old(failures) && old(history) <= history
      ensures failures == old(failures) <==> ok
      ensures ok ==> disk == (if committed then PromoteSteps(old(disk)) else UndoSteps(old(disk)))[2]
      ensures disk == old(disk) || disk in if committed then PromoteSteps(old(disk)) else UndoSteps(old(disk))
      ensures forall i | old(|history|) <= i < |history| ::
                || history[i] == old(disk)
                || history[i] in if committed then PromoteSteps(old(disk)) else UndoSteps(old(disk))
    {
      if committed {
        if disk.verifierNew.Some? {
          ok := ActivateVerifier();
          if !ok { return; }
        }
        ok := RemoveSaltOld();
        if !ok { return; }
      } else if disk.saltOld.Some? {
        ok := RenameOldToSalt();
        if !ok { return; }
        ok := RemoveVerifierNew();
        if !ok { return; }
      } else {
        ok := RemoveVerifierNew();
        if !ok { return; }
      }
      ok := RemoveMarker();
      if ok { ok := Attempt(); }
    }

    /** The first half of recovery: the salt, the state row and, without a state table, the evidence. */
    method JudgeDisk(password: string) returns (judged: bool, committed: bool, stateExists: bool)
      requires disk.salt.Some?
      modifies this`failures
      ensures failures >= old(failures)
      ensures judged ==> Judge(disk, password) == Ok(committed) && stateExists == StateTableExists(disk)
      ensures !judged && failures == old(failures) ==> Judge(disk, password) == Err
    {
      judged, committed, stateExists := false, false, false;
      var loaded := Attempt();                        // encryption_salt_load
      if !loaded { return; }
      if disk.db.Some? {                              // database_has_committed_salt
        var queried := Attempt();
        if !queried { return; }
        stateExists := disk.db.value.state.Table?;
        committed := stateExists && disk.db.value.state.salt == disk.salt;
      }
      if !stateExists && disk.saltOld.Some? {
        if disk.db.None? { return; }
        var read := Attempt();                        // legacy_key_evidence, both salts
        if !read { return; }
        var now := KeyEvidence(disk, Key(password, disk.salt.value));
        var before := KeyEvidence(disk, Key(password, disk.saltOld.value));
        if now.hasRows || before.hasRows {
          if now.opensRows == before.opensRows { return; }
          committed := now.opensRows;
        } else if now.opensVerifier != before.opensVerifier {
          committed := now.opensVerifier;
        } else {
          return;
        }
      }
      judged := true;
    }

    /** migration_check_and_recover: without failures it does what Recover says on every disk, and
        whatever fails or dies it passes only the disks Recover passes. */
    method CheckAndRecover(password: string) returns (rc: int)
      modifies this`failures, this`disk, this`history
      ensures failures >= old(failures) && old(history) <= history
      ensures rc == 0 || rc == -1
      ensures failures == old(failures) ==> (rc == 0 <==> Recover(old(disk), password).Ok?)
      ensures rc == 0 ==> Recover(old(disk), password) == Ok(disk)
      ensures Passes(old(disk), password, disk)
      ensures forall i | old(|history|) <= i < |history| :: Passes(old(disk), password, history[i])
    {
      if !disk.marker { return 0; }
      if disk.salt.None? {
        if disk.saltOld.None? { return -1; }
        var restored := RestoreOldFiles();
        return if restored then 0 else -1;
      }
      var judged, committed, stateExists := JudgeDisk(password);
      if !judged { return -1; }
      if committed && !stateExists && disk.verifierNew.None? {
        var derived := Attempt();
        if !derived { return -1; }
        var created := CreateVerifierNew(Key(password, disk.salt.value));
        if !created { return -1; }
        var synced := Attempt();
        if !synced {
          var _ := RemoveVerifierNew();
          return -1;
        }
      }
      ghost var begun := disk;
      var finalized := FinalizeRecovery(committed);
      ghost var steps := if committed then PromoteSteps(begun) else UndoSteps(begun);
      assert Steps(old(disk), password) == Ok(if begun == old(disk) then steps else [begun] + steps);
      assert forall e | e in steps :: e in [begun] + steps;
      return if finalized then 0 else -1;
    }

    // ----- re-encryption inside the transaction -----

    /** One turn of the loop below: the session is loaded under the old key and saved under the new one. */
    method MigrateSession(row: SessionRow, oldKey: Key, newKey: Key) returns (ok: bool, moved: SessionRow)
      modifies this`failures, this`encKey
      ensures failures >= old(failures)
      ensures ok ==>
          && RowOpens(oldKey, row) && row.id != "" && '\0' !in row.id
          && RowOpens(newKey, moved) && RowKept(row, moved)
      ensures failures == old(failures) ==> (ok <==> RowOpens(oldKey, row) && row.id != "" && '\0' !in row.id)
    {
      moved := row;
      if !NamedText(row.id) { return false, row; }
      encKey := oldKey;
      var read := Attempt();
      var session := LoadSession(encKey, row);
      if !read || session.None? { return false, row; }
      encKey := newKey;
      ok := Attempt();
      if ok { moved := SaveSession(encKey, session.value); }
    }

    /** migrate_sessions: success means every row opened under the old key, and the same rows with
        the same texts now open under the new one. */
    method MigrateSessions(oldKey: Key, newKey: Key) returns (ok: bool)
      requires tx.Some?
      modifies this`failures, this`tx, this`encKey
      ensures failures >= old(failures) && tx.Some?
      ensures ok ==>
                && SessionsUnder(oldKey, old(tx).value.sessions) && NamedSessions(old(tx).value.sessions)
                && SessionsUnder(newKey, tx.value.sessions)
                && SessionsKept(old(tx).value.sessions, tx.value.sessions)
                && tx.value == old(tx).value.(sessions := tx.value.sessions)
      ensures failures == old(failures) ==>
          (ok <==> SessionsUnder(oldKey, old(tx).value.sessions) && NamedSessions(old(tx).value.sessions))
    {
      hide RowOpens, RowKept;
      var rows := tx.value.sessions;
      for i := 0 to |rows|
        invariant failures >= old(failures) && tx.Some?
        invariant tx.value == old(tx).value.(sessions := tx.value.sessions) && |tx.value.sessions| == |rows|
        invariant tx.value.sessions[i..] == rows[i..]
        invariant SessionsUnder(oldKey, rows[..i]) && NamedSessions(rows[..i])
        invariant SessionsUnder(newKey, tx.value.sessions[..i])
        invariant forall k | 0 <= k < i :: RowKept(rows[k], tx.value.sessions[k])
      {
        assert rows[i] == rows[i..][0] == tx.value.sessions[i];
        var moved;
        ok, moved := MigrateSession(tx.value.sessions[i], oldKey, newKey);
        if !ok { return; }
        tx := Some(tx.value.(sessions := tx.value.sessions[i := moved]));
      }
      assert rows[..|rows|] == rows && tx.value.sessions[..|rows|] == tx.value.sessions;
      ok := true;
    }

    /** migrate_provider_oauth */
    method MigrateProviderOAuth(oldKey: Key, newKey: Key) returns (ok: bool)
      requires tx.Some?
      modifies this`failures, this`tx
      ensures failures >= old(failures) && tx.Some?
      ensures ok ==>
                && OAuthUnder(oldKey, old(tx).value.oauth) && NamedOAuth(old(tx).value.oauth)
                && OAuthUnder(newKey, tx.value.oauth)
                && OAuthKept(old(tx).value.oauth, tx.value.oauth)
                && tx.value == old(tx).value.(oauth := tx.value.oauth)
      ensures failures == old(failures) ==>
          (ok <==> OAuthUnder(oldKey, old(tx).value.oauth) && NamedOAuth(old(tx).value.oauth))
    {
      var rows := tx.value.oauth;
      for i := 0 to |rows|
        invariant failures >= old(failures) && tx.Some?
        invariant tx.value == old(tx).value.(oauth := tx.value.oauth) && |tx.value.oauth| == |rows|
        invariant tx.value.oauth[i..] == rows[i..]
        invariant OAuthUnder(oldKey, rows[..i]) && NamedOAuth(rows[..i]) && OAuthUnder(newKey, tx.value.oauth[..i])
        invariant forall k | 0 <= k < i ::
            tx.value.oauth[k].provider == rows[k].provider && tx.value.oauth[k].data.plain == rows[k].data.plain
      {
        assert rows[i] == rows[i..][0] == tx.value.oauth[i];
        if !NamedText(rows[i].provider) { return false; }
        var plain := Decrypt(oldKey, rows[i].data);
        if plain.None? || !NamedText(plain.value) { return false; }
        var updated := Attempt();
        if !updated { return false; }
        tx := Some(tx.value.(oauth := tx.value.oauth[i := rows[i].(data := Cipher(newKey, plain.value))]));
      }
      assert rows[..|rows|] == rows && tx.value.oauth[..|rows|] == tx.value.oauth;
      ok := true;
    }

    /** record_committed_salt */
    method RecordCommittedSalt(salt: Salt) returns (ok: bool)
      requires tx.Some?
      modifies this`failures, this`tx
      ensures tx.Some? && (ok <==> failures == old(failures)) && failures >= old(failures)
      ensures tx.value == if ok then old(tx).value.(state := Table(Some(salt))) else old(tx).value
    {
      ok := Attempt();
      if ok { tx := Some(tx.value.(state := Table(Some(salt)))); }
    }
    // ----- the change -----

    /** Old salt aside, new salt and new verifier written. */
    method PrepareFiles(newKey: Key, ghost rest: Disk) returns (ok: bool)
      modifies this`failures, this`disk, this`history
      ensures failures >= old(failures) && old(history) <= history && disk.db == old(disk).db
      ensures ok ==>
          disk == old(disk).(salt := Some(newKey.salt), saltOld := old(disk).salt, verifierNew := Some(newKey))
      ensures rest.salt.Some? && rest.verifierNew.None? && rest.saltOld.None? && old(disk) == rest.(marker := true) ==>
                && (failures == old(failures) ==> ok)
                && (!ok ==> Uncommitted(rest, disk, newKey))
                && forall i | old(|history|) <= i < |history| :: Uncommitted(rest, history[i], newKey)
    {
      ok := RenameSaltToOld();
      if ok { ok := Attempt(); }
      if ok { ok := CreateSalt(newKey.salt); }
      if ok { ok := Attempt(); }                      // sync file and directory
      if ok { ok := Attempt(); }                      // read the salt and the pepper back, derive the key
      if ok { ok := RemoveVerifierNew(); }
      if ok { ok := CreateVerifierNew(newKey); }
      if ok { ok := Attempt(); }
    }

    /** BEGIN, both row loops, the state row and COMMIT; rolls back on any failure before COMMIT. */
    method Reencrypt(oldKey: Key, newKey: Key) returns (ok: bool)
      requires disk.db.Some? && encKey == oldKey
      modifies this
      ensures failures >= old(failures) && old(history) <= history
      ensures forall i | old(|history|) <= i < |history| :: history[i] == old(disk) || history[i] == disk
      ensures !ok ==> disk == old(disk) && encKey == oldKey
      ensures ok ==>
                && tx.None? && disk.db.Some? && disk == old(disk).(db := disk.db)
                && AllUnder(oldKey, old(disk).db.value) && AllUnder(newKey, disk.db.value)
                && Kept(old(disk).db.value, disk.db.value)
                && disk.db.value.state == Table(Some(newKey.salt))
      ensures failures == old(failures) && old(tx).None? ==>
          (ok <==> AllUnder(oldKey, old(disk).db.value) && NamedRows(old(disk).db.value))
    {
      if tx.Some? { return false; }                   // no transaction within a transaction
      ok := Attempt();                                // BEGIN IMMEDIATE
      if !ok { return; }
      tx := disk.db;
      ok := MigrateSessions(oldKey, newKey);
      if ok { ok := MigrateProviderOAuth(oldKey, newKey); }
      if ok { ok := RecordCommittedSalt(newKey.salt); }
      if ok { ok := Commit(); }
      if !ok {
        var rolledBack := Attempt();
        if rolledBack { tx := None; }
        encKey := oldKey;
      }
    }

    /** The verifier swap after COMMIT; when it does not land, the recovery a restart would run. */
    method Activate(newKey: Key) returns (rc: int)
      requires disk.verifierNew == Some(newKey)
      modifies this`failures, this`disk, this`history
      ensures failures >= old(failures) && old(history) <= history
      ensures rc == 0 || rc == -2
      ensures disk.db == old(disk).db
      ensures Committed(old(disk), newKey) && StateTableExists(old(disk)) ==>
                && Committed(disk, newKey)
                && (rc == 0 ==> disk.verifier == Some(newKey))
                && (failures == old(failures) ==> rc == 0 && disk == PromoteSteps(old(disk))[2])
                && forall i | old(|history|) <= i < |history| ::
                     Committed(history[i], newKey) && history[i].db == disk.db
    {
      var swapped := ActivateVerifier();
      if swapped { swapped := Attempt(); }
      if !swapped {
        ghost var before := disk;
        var recovered := CheckAndRecover(newKey.password);
        if Committed(before, newKey) {
          forall e | Passes(before, newKey.password, e) ensures Committed(e, newKey) && e.db == before.db {
            CompletionKeeps(before, newKey, newKey.password, e);
          }
          RecoversCommitted(before, newKey, newKey.password);
        }
        return if recovered == 0 then 0 else -2;
      }
      var removed := RemoveSaltOld();
      if removed { removed := RemoveMarker(); }
      if removed { var _ := Attempt(); }              // leftovers are only worth a warning
      rc := 0;
    }

    /** migration_perform_change. The result code tells where the rows and the key in memory are, on
        every disk and under every pattern of failures; every disk a crash could leave is one that
        recovery brings back to rest, or forward to the new key when COMMIT had happened. */
    method PerformChange(newPassword: string, drawn: Salt) returns (rc: int)
      requires disk.db.Some?
      modifies this
      ensures failures >= old(failures) && old(history) <= history
      ensures rc == 0 || rc == -1 || rc == -2
      ensures old(disk).marker ==> rc == -1 && disk == old(disk)
      ensures rc == -1 ==> disk.db == old(disk).db && encKey == old(encKey)
      ensures rc != -1 ==>
                && encKey == Key(newPassword, drawn)
                && disk.db.Some? && AllUnder(encKey, disk.db.value) && Kept(old(disk).db.value, disk.db.value)
                && disk.db.value.state == Table(Some(drawn))
      ensures AtRest(old(disk), old(encKey), drawn) ==>
                var newKey := Key(newPassword, drawn);
                && (rc == 0 ==> disk.salt == Some(drawn) && disk.verifier == Some(newKey))
                && (rc != -1 ==> Committed(disk, newKey))
                && (rc == -1 ==> Undone(old(disk), disk, newKey) && (disk == old(disk) <==> !disk.marker))
                && (failures == old(failures) && old(tx).None? ==> (rc == 0 <==> NamedRows(old(disk).db.value)))
                && (failures == old(failures) && old(tx).None? && NamedRows(old(disk).db.value) ==>
                      && rc == 0 && Settled(disk, newPassword, drawn)
                      && forall i | old(|history|) <= i < |history| :: !Abandoned(old(disk), history[i], newKey))
                && forall i | old(|history|) <= i < |history| ::
                     if history[i].db == old(disk).db
                     then Undone(old(disk), history[i], newKey)
                     else Committed(history[i], newKey) && Kept(old(disk).db.value, history[i].db.value)
    {
      var oldKey, newKey := encKey, Key(newPassword, drawn);
      ghost var rest := disk;
      var ok := CreateMarker();
      if !ok { return -1; }
      ok := Attempt();
      if !ok { return -1; }
      ok := PrepareFiles(newKey, rest);
      if ok { ok := Reencrypt(oldKey, newKey); }
      if !ok {
        var _ := RestoreOldFiles();
        return -1;
      }
      encKey := newKey;
      rc := Activate(newKey);
    }

    /** What a failed sync of the marker, or a failed first rename, leaves: the vault at rest with a marker. The next
        change is refused; recovery brings the vault home. */
    method ChangeAfterLeftMarker(newPassword: string, drawn: Salt, ghost rest: Disk)
      returns (refused: int, rc: int, ghost recoveryFailures: nat)
      requires AtRest(rest, encKey, drawn) && disk == rest.(marker := true)
      modifies this
      ensures refused == -1 && encKey == old(encKey)
      ensures recoveryFailures == 0 ==> rc == 0
      ensures rc == 0 ==> disk == rest
    {
      refused := PerformChange(newPassword, drawn);
      LeftMarker(rest, encKey.password, encKey.salt, Key(newPassword, drawn));
      ghost var sofar := failures;
      rc := CheckAndRecover(encKey.password);
      recoveryFailures := failures - sofar;
    }

    // ----- whole lives: a change, a crash, and restarts that crash too -----

    /** The process dies after some step taken since `since`, or before any. */
    method Die(start: Disk, since: nat)
      requires since <= |history|
      modifies this`disk
      ensures disk == start || exists i | since <= i < |history| :: disk == history[i]
    {
      var cut: nat :| since <= cut <= |history|;
      if cut == |history| {
        disk := start;
      } else {
        disk := history[cut];
        assert disk == history[cut];
      }
    }

    /** Recovery cut short any number of times, then run once more. */
    method RestartUntilRecovered(password: string, crashes: nat, ghost rest: Disk, ghost salt: Salt, ghost newKey: Key)
      returns (rc: int, ghost lastFailures: nat)
      modifies this`failures, this`disk, this`history
      ensures old(history) <= history
      ensures lastFailures == 0 ==> (rc == 0 || !Handled(old(disk), password, crashes, rest, salt, newKey))
      ensures rc == 0 && Handled(old(disk), password, crashes, rest, salt, newKey) ==>
                disk == if old(disk).db == rest.db then rest
                        else Disk(Some(newKey.salt), None, Some(newKey), None, false, old(disk).db)
    {
      for i := 0 to crashes
        invariant old(history) <= history
        invariant i == 0 ==> disk == old(disk)
        invariant Handled(old(disk), password, crashes, rest, salt, newKey) ==>
                    disk.db == old(disk).db && Handled(disk, password, crashes - i, rest, salt, newKey)
      {
        var start, since := disk, |history|;
        var _ := CheckAndRecover(password);
        Die(start, since);
        if Handled(start, password, crashes - i, rest, salt, newKey) {
          HandledKeeps(start, password, crashes - i, rest, salt, newKey, disk);
        }
      }
      ghost var before, sofar := disk, failures;
      rc := CheckAndRecover(password);
      lastFailures := failures - sofar;
      if Handled(before, password, 0, rest, salt, newKey) {
        HandledRecovers(before, password, rest, salt, newKey);
      }
    }

    /** A password change that dies after any step, then restarts with the password in force that may
        die too. Once a restart succeeds the vault is exactly as before the change when the crash fell
        before COMMIT, and settled under the new key with the same contents when it fell after. */
    method CrashDuringChange(newPassword: string, drawn: Salt, crashes: nat)
      returns (rc: int, ghost cut: Disk, ghost lastFailures: nat)
      requires disk.db.Some?
      modifies this
      ensures AtRest(old(disk), old(encKey), drawn) && lastFailures == 0
              && (cut.db == old(disk).db ==>
                    var newKey := Key(newPassword, drawn);
                    Undoable(old(disk), cut, old(encKey).salt, newKey)
                      || (crashes == 0 && Uncommitted(old(disk), cut, newKey)))
              ==> rc == 0
      ensures rc == 0 && AtRest(old(disk), old(encKey), drawn) ==>
                var newKey := Key(newPassword, drawn);
                if cut.db != old(disk).db then
                  && Settled(disk, newPassword, drawn)
                  && Kept(old(disk).db.value, disk.db.value)
                else
                  Undoable(old(disk), cut, old(encKey).salt, newKey)
                    || (crashes == 0 && Uncommitted(old(disk), cut, newKey))
                  ==> disk == old(disk)
    {
      var start, since, password := disk, |history|, encKey.password;
      var _ := PerformChange(newPassword, drawn);
      Die(start, since);
      cut, tx := disk, None;
      if disk.db != start.db { password := newPassword; }
      ghost var newKey := Key(newPassword, drawn);
      rc, lastFailures := RestartUntilRecovered(password, crashes, start, old(encKey).salt, newKey);
    }
  }

  /** The disk is one this many interrupted recoveries and a last one can be relied on to bring home. */
  ghost predicate Handled(d: Disk, password: string, crashes: nat, rest: Disk, salt: Salt, newKey: Key) {
    if d.db == rest.db then
      && Settled(rest, password, salt) && Fresh(rest, newKey.salt)
      && (Undoable(rest, d, salt, newKey) || (crashes == 0 && Uncommitted(rest, d, newKey)))
    else
      Committed(d, newKey) && (password == newKey.password || StateTableExists(d))
  }

  lemma HandledKeeps(d: Disk, password: string, crashes: nat, rest: Disk, salt: Salt, newKey: Key, e: Disk)
    requires crashes > 0 && Handled(d, password, crashes, rest, salt, newKey)
    requires Passes(d, password, e)
    ensures e.db == d.db && Handled(e, password, crashes - 1, rest, salt, newKey)
  {
    if d.db == rest.db {
      UndoKeeps(rest, d, password, salt, newKey, e);
    } else {
      CompletionKeeps(d, newKey, password, e);
    }
  }

  lemma HandledRecovers(d: Disk, password: string, rest: Disk, salt: Salt, newKey: Key)
    requires Handled(d, password, 0, rest, salt, newKey)
    ensures Recover(d, password) == Ok(if d.db == rest.db then rest
                                       else Disk(Some(newKey.salt), None, Some(newKey), None, false, d.db))
  {
    if d.db != rest.db {
      RecoversCommitted(d, newKey, password);
    } else if Undoable(rest, d, salt, newKey) {
      UndoableRecovers(rest, d, password, salt, newKey);
    } else {
      RecoversUncommitted(rest, d, password, salt, newKey);
    }
  }

  /** A vault in service under `key`, about to change to a freshly drawn salt. */
  ghost predicate AtRest(d: Disk, key: Key, drawn: Salt) {
    Settled(d, key.password, key.salt) && Fresh(d, drawn)
  }

  /** Disks restore_old_files passes; a failed rename still lets it drop the new verifier. */
  ghost predicate Undoing(d: Disk, e: Disk) {
    e == d || e == d.(verifierNew := None) || (d.saltOld.Some? && e in UndoSteps(d))
  }

  /** A marker alone is not the old state, but recovery makes it so. */
  lemma LeftMarker(rest: Disk, password: string, salt: Salt, newKey: Key)
    requires Settled(rest, password, salt) && Fresh(rest, newKey.salt)
    ensures var d := rest.(marker := true);
            d != rest && Undone(rest, d, newKey) && Recover(d, password) == Ok(rest)
  {
    RecoversUncommitted(rest, rest.(marker := true), password, salt, newKey);
  }

  /** Nothing but migration artifacts distinguishes the disk from the one at rest. */
  ghost predicate Undone(rest: Disk, d: Disk, newKey: Key) {
    Uncommitted(rest, d, newKey) || Abandoned(rest, d, newKey)
  }

  /** Ids, providers and payloads the row loops accept. */
  ghost predicate NamedSessions(rows: seq<SessionRow>) {
    forall i | 0 <= i < |rows| :: rows[i].id != "" && '\0' !in rows[i].id
  }

  ghost predicate NamedOAuth(rows: seq<OAuthRow>) {
    forall i | 0 <= i < |rows| ::
      && rows[i].provider != "" && '\0' !in rows[i].provider
      && rows[i].data.plain != "" && '\0' !in rows[i].data.plain
  }

  ghost predicate NamedRows(db: Database) {
    NamedSessions(db.sessions) && NamedOAuth(db.oauth)
  }

  /** A non-empty text without NUL bytes. */
  predicate NamedText(t: Text) {
    t != "" && '\0' !in t
  }
}
