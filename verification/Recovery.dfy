/**
 What an uninterrupted password-migration recovery does to a disk, and which disks it
 brings back to a single key. Recovery sees the disk only: it has to work out from
 the files, the state row and (without one) the password which side of COMMIT the
 crash fell on.
 */
module Recovery {
  import opened Wrappers
  import opened Vault

  // ----- specification of one uninterrupted recovery -----

  /** The salt recorded in the state table equals the salt file's. */
  predicate StoredSaltIs(d: Disk, salt: Salt) {
    d.db.Some? && d.db.value.state.Table? && d.db.value.state.salt == Some(salt)
  }

  predicate StateTableExists(d: Disk) {
    d.db.Some? && d.db.value.state.Table?
  }

  /** What a candidate salt and the password can open. */
  datatype Evidence = Evidence(hasRows: bool, opensRows: bool, opensVerifier: bool)

  function KeyEvidence(d: Disk, key: Key): Evidence
    requires d.db.Some?
  {
    var blob := ProbeBlob(d.db.value);
    Evidence(blob.Some?, blob.Some? && Decrypt(key, blob.value).Some?, d.verifier == Some(key))
  }

  /** Which way the evidence points; Err when it does not tell. */
  function Weigh(now: Evidence, before: Evidence): Result<bool> {
    if now.hasRows || before.hasRows then
      if now.opensRows == before.opensRows then Err else Ok(now.opensRows)
    else if now.opensVerifier != before.opensVerifier then Ok(now.opensVerifier)
    else Err
  }

  /** Decides whether the transaction had committed. */
  function Judge(d: Disk, password: string): Result<bool>
    requires d.salt.Some?
  {
    if StateTableExists(d) || d.saltOld.None? then Ok(StoredSaltIs(d, d.salt.value))
    else if d.db.None? then Err
    else Weigh(KeyEvidence(d, Key(password, d.salt.value)), KeyEvidence(d, Key(password, d.saltOld.value)))
  }

  /** Disks passed when finishing a committed migration. */
  function PromoteSteps(d: Disk): seq<Disk> {
    var activated := if d.verifierNew.Some? then d.(verifier := d.verifierNew, verifierNew := None) else d;
    var dropped := activated.(saltOld := None);
    [activated, dropped, dropped.(marker := false)]
  }

  /** Disks passed when undoing an uncommitted migration. */
  function UndoSteps(d: Disk): seq<Disk> {
    var restored := if d.saltOld.Some? then d.(salt := d.saltOld, saltOld := None) else d;
    var dropped := restored.(verifierNew := None);
    [restored, dropped, dropped.(marker := false)]
  }

  /** Every disk an uninterrupted recovery passes, in order; Err when it gives up. */
  function Steps(d: Disk, password: string): Result<seq<Disk>> {
    if !d.marker then Ok([])
    else if d.salt.None? then
      if d.saltOld.Some? then Ok(UndoSteps(d)) else Err
    else
      match Judge(d, password)
      case Err => Err
      case Ok(false) => Ok(UndoSteps(d))
      case Ok(true) =>
        if !StateTableExists(d) && d.verifierNew.None? then
          var made := d.(verifierNew := Some(Key(password, d.salt.value)));
          Ok([made] + PromoteSteps(made))
        else Ok(PromoteSteps(d))
  }

  /** The disk an uninterrupted recovery leaves; Err when it returns -1. */
  function Recover(d: Disk, password: string): Result<Disk> {
    match Steps(d, password)
    case Err => Err
    case Ok(steps) => Ok(if steps == [] then d else steps[|steps| - 1])
  }

  /** Every disk a recovery can leave behind when steps fail or the process dies. */
  ghost predicate Passes(d: Disk, password: string, e: Disk) {
    || e == d
    || (Steps(d, password).Ok? && e in Steps(d, password).value)
    // a failed rename does not stop the undo from dropping the new verifier
    || (d.marker && d.salt.None? && e == d.(verifierNew := None))
  }

  // ----- the disks of one migration -----

  /** A vault at rest: one salt, one verifier, every row under the key they make, no artifacts. */
  ghost predicate Settled(d: Disk, password: string, salt: Salt) {
    && d.salt == Some(salt)
    && d.saltOld.None? && d.verifierNew.None? && !d.marker
    && d.verifier == Some(Key(password, salt))
    && d.db.Some? && AllUnder(Key(password, salt), d.db.value)
  }

  /** Disks of a migration that has not committed, at rest in `rest` before it began. */
  ghost predicate Uncommitted(rest: Disk, d: Disk, newKey: Key) {
    || d == rest
    || (&& d.marker && d.verifier == rest.verifier && d.db == rest.db
        && ((d.salt == rest.salt && d.saltOld.None? && d.verifierNew.None?)
            || (d.salt.None? && d.saltOld == rest.salt && d.verifierNew.None?)
            || (d.salt == Some(newKey.salt) && d.saltOld == rest.salt
                && (d.verifierNew.None? || d.verifierNew == Some(newKey)))))
  }

  /** The old salt is back in place but the abandoned verifier is not yet deleted. */
  ghost predicate Abandoned(rest: Disk, d: Disk, newKey: Key) {
    d == rest.(marker := true, verifierNew := Some(newKey))
  }

  /** Disks of a migration that has committed (the state row is absent on a vault
      committed by a version that did not write one, which then has encrypted rows). */
  ghost predicate Committed(d: Disk, newKey: Key) {
    && d.salt == Some(newKey.salt)
    && d.db.Some? && AllUnder(newKey, d.db.value)
    && (|| d.db.value.state == Table(Some(newKey.salt))
        || (d.db.value.state.NoTable? && HasRows(d.db.value)))
    && (d.verifierNew.None? || d.verifierNew == Some(newKey))
    && (d.verifierNew.None? ==> d.verifier == Some(newKey) || (d.db.value.state.NoTable? && d.saltOld.Some?))
    && (d.saltOld.Some? ==> d.marker && d.saltOld.value != newKey.salt)
    && (d.saltOld.None? ==> d.verifierNew.None? && d.verifier == Some(newKey))
  }

  /** The salt a migration draws differs from the one in use and the one on record. */
  ghost predicate Fresh(rest: Disk, salt: Salt) {
    rest.salt != Some(salt) && !StoredSaltIs(rest, salt)
  }

  // ----- crash safety -----

  /** A crash before COMMIT is undone: the vault comes back exactly as it was at rest. */
  lemma RecoversUncommitted(rest: Disk, d: Disk, password: string, salt: Salt, newKey: Key)
    requires Settled(rest, password, salt) && Fresh(rest, newKey.salt)
    requires Uncommitted(rest, d, newKey)
    ensures Recover(d, password) == Ok(rest)
  {
    ProbeOpens(Key(password, salt), rest.db.value);
  }

  /** With a state table, undoing needs no password. */
  lemma RecoversUncommittedWithStateRow(rest: Disk, d: Disk, password: string, salt: Salt, newKey: Key, typed: string)
    requires Settled(rest, password, salt) && Fresh(rest, newKey.salt) && StateTableExists(rest)
    requires Uncommitted(rest, d, newKey)
    ensures Recover(d, typed) == Ok(rest)
  {
  }

  /** A crash after COMMIT is completed: the vault settles under the new key with the committed rows. */
  lemma RecoversCommitted(d: Disk, newKey: Key, typed: string)
    requires Committed(d, newKey)
    requires typed == newKey.password || StateTableExists(d)
    ensures Recover(d, typed) == Ok(Disk(Some(newKey.salt), None, Some(newKey), None, false, d.db))
  {
    ProbeOpens(newKey, d.db.value);
    ProbeFinds(d.db.value);
  }

  /** Halfway through the file swap of a vault without a state table, a password that made neither key opens
      nothing, and recovery refuses: the evidence does not tell. */
  lemma WrongPasswordRefused(rest: Disk, d: Disk, password: string, salt: Salt, newKey: Key, typed: string)
    requires Settled(rest, password, salt) && Fresh(rest, newKey.salt) && rest.db.value.state.NoTable?
    requires d.marker && d.salt == Some(newKey.salt) && d.saltOld == Some(salt) && d.verifier == rest.verifier
    requires d.db == rest.db || (Committed(d, newKey) && d.db.value.state.NoTable?)
    requires typed != password && typed != newKey.password
    ensures Recover(d, typed) == Err
  {
    hide HasRows;
    if d.db == rest.db {
      ProbeOpens(Key(password, salt), d.db.value);
    } else {
      ProbeOpens(newKey, d.db.value);
      ProbeFinds(d.db.value);
    }
  }

  /** Recovery does nothing to a disk without a marker, and only to such a disk. It gives up without a salt to
      restore and, with two salts and no state table, without a database or when the rows, or the verifier if there
      are no rows, open under both keys or under neither. */
  lemma GivesUpExactly(d: Disk, typed: string)
    ensures !d.marker ==> Recover(d, typed) == Ok(d)
    ensures d.marker && Recover(d, typed).Ok? ==> !Recover(d, typed).value.marker
    ensures Recover(d, typed).Err? <==>
              d.marker && if d.salt.None? then d.saltOld.None?
                          else d.saltOld.Some? && !(d.db.Some? && d.db.value.state.Table?)
                               && (d.db.None? || !Tells(d, Key(typed, d.salt.value), Key(typed, d.saltOld.value)))
  {
    if d.db.Some? { ProbeFinds(d.db.value); }
    hide HasRows, ProbeBlob;
  }

  /** Exactly one of the keys opens what there is to open: the probed blob, or the verifier if nothing is encrypted. */
  ghost predicate Tells(d: Disk, now: Key, before: Key)
    requires d.db.Some?
  {
    if HasRows(d.db.value) then
      && ProbeBlob(d.db.value).Some?
      && (ProbeBlob(d.db.value).value.key == now) != (ProbeBlob(d.db.value).value.key == before)
    else (d.verifier == Some(now)) != (d.verifier == Some(before))
  }

  // ----- restart safety -----

  /** The undo put the old salt back while a verifier of the abandoned change is still there.
      With a state row from an earlier change the rerun takes this for a committed change: it
      promotes the abandoned verifier, and no password opens the vault any more. Otherwise it
      finishes the undo. */
  lemma AbandonedVerifierExact(rest: Disk, d: Disk, password: string, salt: Salt, newKey: Key)
    requires Settled(rest, password, salt) && Fresh(rest, newKey.salt)
    requires Abandoned(rest, d, newKey)
    ensures Recover(d, password) == Ok(rest) <==> !StoredSaltIs(rest, salt)
    ensures StoredSaltIs(rest, salt) ==>
              && Recover(d, password) == Ok(rest.(verifier := Some(newKey)))
              && forall typed :: rest.(verifier := Some(newKey)).verifier != Some(Key(typed, salt))
  {
    assert newKey.salt != salt;
  }

  /** Disks from which every number of interrupted undos still ends at rest. */
  ghost predicate Undoable(rest: Disk, d: Disk, salt: Salt, newKey: Key) {
    && (Uncommitted(rest, d, newKey) || Abandoned(rest, d, newKey))
    && !(StoredSaltIs(rest, salt) && d.verifierNew.Some?)
  }

  /** Interrupting the recovery of an uncommitted change is harmless exactly when there is not both
      a state row of an earlier change and an abandoned verifier. */
  lemma UndoRestartExact(rest: Disk, d: Disk, password: string, salt: Salt, newKey: Key)
    requires Settled(rest, password, salt) && Fresh(rest, newKey.salt)
    requires Uncommitted(rest, d, newKey)
    ensures (forall e | Passes(d, password, e) :: Recover(e, password) == Ok(rest))
       <==> !(StoredSaltIs(rest, salt) && d.verifierNew.Some?)
  {
    ProbeOpens(Key(password, salt), rest.db.value);
    if StoredSaltIs(rest, salt) && d.verifierNew.Some? {
      var cut := rest.(marker := true, verifierNew := Some(newKey));
      assert Steps(d, password) == Ok(UndoSteps(d)) && UndoSteps(d)[0] == cut;
      assert Passes(d, password, cut);
      AbandonedVerifierExact(rest, cut, password, salt, newKey);
    } else {
      forall e | Passes(d, password, e) ensures Recover(e, password) == Ok(rest) {
        UndoKeeps(rest, d, password, salt, newKey, e);
        UndoableRecovers(rest, e, password, salt, newKey);
      }
    }
  }

  lemma UndoableRecovers(rest: Disk, d: Disk, password: string, salt: Salt, newKey: Key)
    requires Settled(rest, password, salt) && Fresh(rest, newKey.salt)
    requires Undoable(rest, d, salt, newKey)
    ensures Recover(d, password) == Ok(rest)
  {
    ProbeOpens(Key(password, salt), rest.db.value);
  }

  /** What an interrupted undo leaves can be undone again. */
  lemma UndoKeeps(rest: Disk, d: Disk, password: string, salt: Salt, newKey: Key, e: Disk)
    requires Settled(rest, password, salt) && Fresh(rest, newKey.salt)
    requires Undoable(rest, d, salt, newKey)
    requires Passes(d, password, e)
    ensures Undoable(rest, e, salt, newKey)
  {
    ProbeOpens(Key(password, salt), rest.db.value);
    if e != d && Steps(d, password).Ok? && e in Steps(d, password).value {
      assert Steps(d, password) == Ok(UndoSteps(d));
      assert e == UndoSteps(d)[0] || e == UndoSteps(d)[1] || e == UndoSteps(d)[2];
    }
  }

  /** What an interrupted completion leaves can be completed again, with the same rows. */
  lemma CompletionKeeps(d: Disk, newKey: Key, typed: string, e: Disk)
    requires Committed(d, newKey)
    requires typed == newKey.password || StateTableExists(d)
    requires Passes(d, typed, e)
    ensures Committed(e, newKey) && e.db == d.db
  {
    ProbeOpens(newKey, d.db.value);
    ProbeFinds(d.db.value);
    if e != d {
      var steps := Steps(d, typed).value;
      var i :| 0 <= i < |steps| && steps[i] == e;
      assert |steps| == 3 || |steps| == 4;
    }
  }
}
