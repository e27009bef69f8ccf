/**
 The password vault on disk: salt, verifier and marker files next to one SQLite
 database, with the cryptography idealised. A key is the pair it is derived from,
 so key derivation is injective, and a ciphertext opens under one key only. The
 pepper file never changes during a migration and is left implicit in the key.
 */
module Vault {
  import opened Wrappers

  type Salt = int
  type Text = string

  datatype Key = Key(password: string, salt: Salt)

  datatype Cipher = Cipher(key: Key, plain: Text)

  function Decrypt(key: Key, c: Cipher): Option<Text> {
    if c.key == key then Some(c.plain) else None
  }

  /** One row of agent_sessions; an absent blob is SQL NULL. */
  datatype SessionRow = SessionRow(id: string, createdAt: Text, titleAttempted: int, title: Option<Cipher>,
                                   messages: Option<Cipher>, metadata: Option<Cipher>, events: Option<Cipher>)

  /** One row of provider_oauth. */
  datatype OAuthRow = OAuthRow(provider: string, data: Cipher)

  /** The table password_migration_state: absent, or holding at most one salt. */
  datatype MigrationState = NoTable | Table(salt: Option<Salt>)

  datatype Database = Database(sessions: seq<SessionRow>, oauth: seq<OAuthRow>, state: MigrationState)

  /** Everything a crash leaves behind. A verifier file is known by the key that encrypted it. */
  datatype Disk = Disk(salt: Option<Salt>, saltOld: Option<Salt>, verifier: Option<Key>, verifierNew: Option<Key>,
                       marker: bool, db: Option<Database>)

  /** A decrypted session. */
  datatype Session = Session(id: string, createdAt: Text, titleAttempted: int, title: Text, messages: Text,
                             metadata: Text, events: Text)

  // ----- loading and saving one session -----

  predicate Opens(key: Key, blob: Option<Cipher>) {
    blob.None? || blob.value.key == key
  }

  function Plain(blob: Option<Cipher>, default: Text): Text {
    if blob.Some? then blob.value.plain else default
  }

  predicate RowOpens(key: Key, row: SessionRow) {
    Opens(key, row.title) && Opens(key, row.messages) && Opens(key, row.metadata) && Opens(key, row.events)
  }

  /** What a row says, whoever can read it: NULL columns read as their defaults. */
  function RowContents(row: SessionRow): Session {
    Session(row.id, row.createdAt, row.titleAttempted, Plain(row.title, ""), Plain(row.messages, "[]"),
            Plain(row.metadata, "{}"), Plain(row.events, "[]"))
  }

  /** Loading fails as soon as one column does not open under the key. */
  function LoadSession(key: Key, row: SessionRow): Option<Session> {
    if RowOpens(key, row) then Some(RowContents(row)) else None
  }

  /** Saving writes every column except an empty title, which becomes NULL. */
  function SaveSession(key: Key, s: Session): SessionRow {
    SessionRow(s.id, s.createdAt, s.titleAttempted, if s.title == "" then None else Some(Cipher(key, s.title)),
               Some(Cipher(key, s.messages)), Some(Cipher(key, s.metadata)), Some(Cipher(key, s.events)))
  }

  // ----- whole databases -----

  ghost predicate SessionsUnder(key: Key, rows: seq<SessionRow>) {
    forall i | 0 <= i < |rows| :: RowOpens(key, rows[i])
  }

  ghost predicate OAuthUnder(key: Key, rows: seq<OAuthRow>) {
    forall i | 0 <= i < |rows| :: rows[i].data.key == key
  }

  /** Every ciphertext of the database opens under the key. */
  ghost predicate AllUnder(key: Key, db: Database) {
    SessionsUnder(key, db.sessions) && OAuthUnder(key, db.oauth)
  }

  // ----- what a change of keys may not change, column by column -----

  /** A column that held a text holds the same text; one that was NULL holds the empty document of its kind. */
  predicate ColumnKept(before: Option<Cipher>, after: Option<Cipher>, empty: Text) {
    after.Some? && after.value.plain == if before.Some? then before.value.plain else empty
  }

  /** A title stays; an empty one may as well be NULL. */
  predicate TitleKept(before: Option<Cipher>, after: Option<Cipher>) {
    if before.Some? && before.value.plain != "" then after.Some? && after.value.plain == before.value.plain
    else after.None?
  }

  predicate RowKept(before: SessionRow, after: SessionRow) {
    && after.id == before.id && after.createdAt == before.createdAt && after.titleAttempted == before.titleAttempted
    && TitleKept(before.title, after.title)
    && ColumnKept(before.messages, after.messages, "[]")
    && ColumnKept(before.metadata, after.metadata, "{}")
    && ColumnKept(before.events, after.events, "[]")
  }

  /** Same rows in the same order, with the texts they had; keys may differ. */
  ghost predicate SessionsKept(before: seq<SessionRow>, after: seq<SessionRow>) {
    |after| == |before| && forall i | 0 <= i < |before| :: RowKept(before[i], after[i])
  }

  ghost predicate OAuthKept(before: seq<OAuthRow>, after: seq<OAuthRow>) {
    && |after| == |before|
    && forall i | 0 <= i < |before| ::
         after[i].provider == before[i].provider && after[i].data.plain == before[i].data.plain
  }

  ghost predicate Kept(before: Database, after: Database) {
    SessionsKept(before.sessions, after.sessions) && OAuthKept(before.oauth, after.oauth)
  }

  /** Some session has something encrypted in it. */
  ghost predicate HasRows(db: Database) {
    exists i | 0 <= i < |db.sessions| :: HasColumn(db.sessions[i])
  }

  predicate HasColumn(row: SessionRow) {
    row.title.Some? || row.messages.Some? || row.metadata.Some? || row.events.Some?
  }

  /** The encrypted columns in the order the recovery probe selects them. */
  function Columns(rows: seq<SessionRow>): seq<Option<Cipher>> {
    seq(|rows|, i requires 0 <= i < |rows| => rows[i].title) +
    seq(|rows|, i requires 0 <= i < |rows| => rows[i].messages) +
    seq(|rows|, i requires 0 <= i < |rows| => rows[i].metadata) +
    seq(|rows|, i requires 0 <= i < |rows| => rows[i].events)
  }

  function FirstPresent(blobs: seq<Option<Cipher>>): (blob: Option<Cipher>)
    ensures blob.Some? ==> blob in blobs
    ensures blob.None? ==> forall b | b in blobs :: b.None?
  {
    if blobs == [] then None else if blobs[0].Some? then blobs[0] else FirstPresent(blobs[1..])
  }

  /** The one blob recovery tries to decrypt. */
  function ProbeBlob(db: Database): Option<Cipher> {
    FirstPresent(Columns(db.sessions))
  }

  /** There is a blob to probe if and only if some session has something encrypted in it. */
  lemma ProbeFinds(db: Database)
    ensures ProbeBlob(db).Some? <==> HasRows(db)
  {
    var rows := db.sessions;
    hide FirstPresent, Columns;
    forall b ensures b in Columns(rows) <==> InRows(b, rows) { ColumnsHold(rows, b); }
    if HasRows(db) {
      var i :| 0 <= i < |rows| && HasColumn(rows[i]);
      var row := rows[i];
      var b := if row.title.Some? then row.title else if row.messages.Some? then row.messages
               else if row.metadata.Some? then row.metadata else row.events;
      assert InRows(b, rows);
    }
  }

  ghost predicate InRows(b: Option<Cipher>, rows: seq<SessionRow>) {
    exists i | 0 <= i < |rows| :: b in [rows[i].title, rows[i].messages, rows[i].metadata, rows[i].events]
  }

  lemma ColumnsHold(rows: seq<SessionRow>, b: Option<Cipher>)
    ensures b in Columns(rows) <==> InRows(b, rows)
  {
    var n := |rows|;
    var titles := seq(n, i requires 0 <= i < n => rows[i].title);
    var messages := seq(n, i requires 0 <= i < n => rows[i].messages);
    var metadata := seq(n, i requires 0 <= i < n => rows[i].metadata);
    var events := seq(n, i requires 0 <= i < n => rows[i].events);
    assert Columns(rows) == titles + messages + metadata + events;
    assert b in Columns(rows) <==> b in titles || b in messages || b in metadata || b in events;
    if InRows(b, rows) {
      var i :| 0 <= i < n && b in [rows[i].title, rows[i].messages, rows[i].metadata, rows[i].events];
      assert b in [titles[i], messages[i], metadata[i], events[i]];
    }
  }

  lemma ProbeOpens(key: Key, db: Database)
    requires SessionsUnder(key, db.sessions)
    ensures Opens(key, ProbeBlob(db))
  {
    forall b | b in Columns(db.sessions) ensures Opens(key, b) {
      var rows := db.sessions;
      assert b in seq(|rows|, i requires 0 <= i < |rows| => rows[i].title)
          || b in seq(|rows|, i requires 0 <= i < |rows| => rows[i].messages)
          || b in seq(|rows|, i requires 0 <= i < |rows| => rows[i].metadata)
          || b in seq(|rows|, i requires 0 <= i < |rows| => rows[i].events);
    }
  }

  /** The database holds this ciphertext, in a column of a session or as a provider's credentials. */
  ghost predicate Stored(c: Cipher, db: Database) {
    InRows(Some(c), db.sessions) || exists i :: 0 <= i < |db.oauth| && db.oauth[i].data == c
  }

  /** A database is under a key if and only if every ciphertext in it is sealed with that key. */
  lemma AllUnderExactly(key: Key, db: Database)
    ensures AllUnder(key, db) <==> forall c :: Stored(c, db) ==> c.key == key
  {
    hide InRows;
    if forall c :: Stored(c, db) ==> c.key == key {
      forall i | 0 <= i < |db.sessions| ensures RowOpens(key, db.sessions[i]) { RowStored(key, db, i); }
      forall i | 0 <= i < |db.oauth| ensures db.oauth[i].data.key == key { assert Stored(db.oauth[i].data, db); }
    }
    if AllUnder(key, db) {
      forall c | Stored(c, db) ensures c.key == key {
        if InRows(Some(c), db.sessions) { StoredOpens(key, db.sessions, c); }
      }
    }
  }

  lemma StoredOpens(key: Key, rows: seq<SessionRow>, c: Cipher)
    requires SessionsUnder(key, rows) && InRows(Some(c), rows)
    ensures c.key == key
  {
  }

  lemma RowStored(key: Key, db: Database, i: nat)
    requires i < |db.sessions| && forall c :: Stored(c, db) ==> c.key == key
    ensures RowOpens(key, db.sessions[i])
  {
    var row := db.sessions[i];
    forall b: Option<Cipher> | b.Some? && (b == row.title || b == row.messages || b == row.metadata || b == row.events)
      ensures b.value.key == key
    {
      assert InRows(b, db.sessions);
      assert Stored(b.value, db);
    }
  }
}
