/** Re-encryption of a restore candidate under the target key and the full
    decrypt verification of a database file (internal/backup/rekey.go,
    internal/backup/restore.go). */
module Rekey {
  import opened Bytes
  import opened Wrappers
  import opened Payload
  import opened Rows
  import A = Aad

  type VersionKey = (Text, nat)

  /** One database file. `users` stands for every table that a restore leaves
      alone; `systemState` holds the restore marker among other keys. */
  datatype Database = Database(
    items: map<Text, ItemRow>,
    versions: map<VersionKey, VersionRow>,
    users: map<Text, Text>,
    systemState: map<string, Text>,
    sessions: set<Text>,
    loginAttempts: set<nat>,
    idempotencyKeys: set<(Text, Text)>)

  datatype Report = Report(items: nat, versions: nat, authCleared: nat)

  function CurrentPlain(aead: Aead, key: Text, db: Database, id: Text): Option<Text>
    requires id in db.items
  {
    ItemPlain(aead, key, id, db.items[id])
  }

  function ArchivedPlain(aead: Aead, key: Text, db: Database, v: VersionKey): Option<Text>
    requires v in db.versions
  {
    if v.0 !in db.items then None
    else VersionPlain(aead, key, v.0, db.items[v.0], v.1, db.versions[v])
  }

  ghost predicate ItemsReadable(aead: Aead, key: Text, db: Database) {
    forall id :: id in db.items ==> CurrentPlain(aead, key, db, id).Some?
  }

  ghost predicate VersionsReadable(aead: Aead, key: Text, db: Database) {
    forall v :: v in db.versions ==> ArchivedPlain(aead, key, db, v).Some?
  }

  /** Every current and archived payload authenticates under the key and its
      own row identity. */
  ghost predicate Readable(aead: Aead, key: Text, db: Database) {
    ItemsReadable(aead, key, db) && VersionsReadable(aead, key, db)
  }

  /** The row keeps its plaintext, now under the target key, and every other column. */
  ghost predicate RowRekeyed(aead: Aead, sourceKey: Text, targetKey: Text, id: Text, src: ItemRow, dst: ItemRow) {
    && dst == src.(sealed := dst.sealed)
    && ItemPlain(aead, sourceKey, id, src).Some?
    && ItemPlain(aead, targetKey, id, dst) == ItemPlain(aead, sourceKey, id, src)
  }

  /** dst is src re-encrypted: the same rows with the same identities and
      revisions, every payload with the plaintext it had, and no short-lived
      authentication state. */
  ghost predicate RekeyOf(aead: Aead, sourceKey: Text, targetKey: Text, src: Database, dst: Database) {
    && dst.items.Keys == src.items.Keys
    && dst.versions.Keys == src.versions.Keys
    && (forall id :: id in src.items ==> RowRekeyed(aead, sourceKey, targetKey, id, src.items[id], dst.items[id]))
    && (forall v :: v in src.versions ==>
          && dst.versions[v] == src.versions[v].(sealed := dst.versions[v].sealed)
          && ArchivedPlain(aead, sourceKey, src, v).Some?
          && ArchivedPlain(aead, targetKey, dst, v) == ArchivedPlain(aead, sourceKey, src, v))
    && dst.users == src.users
    && dst.systemState == src.systemState
    && dst.sessions == {} && dst.loginAttempts == {} && dst.idempotencyKeys == {}
  }

  /** The identity that rekeying and verification bind is the one the vault
      service encrypted under. */
  lemma FoldedIdentity(id: Text, row: ItemRow, version: nat, revision: nat)
    ensures AadFor(id, row.scope, FoldedSubject(row), [], version, revision) == RowAad(id, row, version, revision)
  {
  }

  /** A rekeyed database passes the full decrypt verification. */
  lemma RekeyedIsReadable(aead: Aead, sourceKey: Text, targetKey: Text, src: Database, dst: Database)
    requires RekeyOf(aead, sourceKey, targetKey, src, dst)
    ensures Readable(aead, targetKey, dst)
  {
    forall id | id in dst.items ensures CurrentPlain(aead, targetKey, dst, id).Some? {
      assert id in src.items;
    }
    forall v | v in dst.versions ensures ArchivedPlain(aead, targetKey, dst, v).Some? {
      assert v in src.versions;
    }
  }

  /** Rekeying there and back loses nothing: the second result reads under the
      first key exactly as the original did. */
  lemma RekeyRoundTrip(aead: Aead, k0: Text, k1: Text, src: Database, mid: Database, dst: Database)
    requires RekeyOf(aead, k0, k1, src, mid) && RekeyOf(aead, k1, k0, mid, dst)
    ensures dst.items.Keys == src.items.Keys && dst.versions.Keys == src.versions.Keys
    ensures forall id :: id in src.items ==> CurrentPlain(aead, k0, dst, id) == CurrentPlain(aead, k0, src, id)
    ensures forall v :: v in src.versions ==> ArchivedPlain(aead, k0, dst, v) == ArchivedPlain(aead, k0, src, v)
  {
    forall id | id in src.items ensures CurrentPlain(aead, k0, dst, id) == CurrentPlain(aead, k0, src, id) {
      assert id in mid.items;
    }
    forall v | v in src.versions ensures ArchivedPlain(aead, k0, dst, v) == ArchivedPlain(aead, k0, src, v) {
      assert v in mid.versions;
    }
  }

  /** The rows of `done` are rekeyed, the others untouched. */
  ghost predicate ItemsRekeyed(aead: Aead, sourceKey: Text, targetKey: Text,
                               src: map<Text, ItemRow>, dst: map<Text, ItemRow>, done: set<Text>)
  {
    && dst.Keys == src.Keys
    && (forall id :: id in src && id in done ==> RowRekeyed(aead, sourceKey, targetKey, id, src[id], dst[id]))
    && (forall id :: id in src && id !in done ==> dst[id] == src[id])
  }

  /** The columns that a stored form is written back as. */
  function Split(version: nat, enc: Text): Columns
    requires |enc| >= HEADER_SIZE
  {
    Columns(version, enc[2..HEADER_SIZE], enc[HEADER_SIZE..])
  }

  /** enc is a stored form whose columns open, in version v's position, to the
      plaintext that v has under the source key. */
  ghost predicate Resealed(aead: Aead, sourceKey: Text, targetKey: Text, src: Database, v: VersionKey, enc: Text)
    requires v in src.versions
  {
    && |enc| >= HEADER_SIZE + TAG_SIZE
    && ArchivedPlain(aead, sourceKey, src, v).Some?
    && var version := src.versions[v].sealed.version;
       OpenColumns(aead, targetKey, Split(version, enc), RowAad(v.0, src.items[v.0], version, v.1))
       == ArchivedPlain(aead, sourceKey, src, v)
  }

  /** One payload from key to key under one AAD: None when it does not open. */
  method Reencrypt(aead: Aead, sourceKey: Text, targetKey: Text, nonce: Nonce, sealed: Columns, aad: A.Aad)
    returns (enc: Option<Text>)
    requires aead.Correct()
    ensures enc.Some? <==> OpenColumns(aead, sourceKey, sealed, aad).Some?
    ensures enc.Some? ==>
              && |enc.value| >= HEADER_SIZE + TAG_SIZE
              && OpenColumns(aead, targetKey, Split(sealed.version, enc.value), aad)
                 == OpenColumns(aead, sourceKey, sealed, aad)
  {
    var plain := OpenColumns(aead, sourceKey, sealed, aad);
    if plain.None? {
      return None;
    }
    var p := Encrypt(aead, targetKey, nonce, plain.value, aad);
    EncodedSplits(p);
    SealedOpens(aead, targetKey, nonce, plain.value, aad);
    enc := Some(p.Encoded());
  }

  /** One current row: decrypt, re-encrypt, and write the split columns back. */
  method RekeyItem(aead: Aead, sourceKey: Text, targetKey: Text, nonce: Nonce,
                   src: map<Text, ItemRow>, items: map<Text, ItemRow>, id: Text, ghost done: set<Text>)
    returns (written: Option<map<Text, ItemRow>>)
    requires aead.Correct()
    requires id in src && ItemsRekeyed(aead, sourceKey, targetKey, src, items, done)
    ensures written.Some? <==> ItemPlain(aead, sourceKey, id, src[id]).Some?
    ensures written.Some? ==> ItemsRekeyed(aead, sourceKey, targetKey, src, written.value, done + {id})
  {
    var u := src[id];
    var aad := AadFor(id, u.scope, FoldedSubject(u), [], u.sealed.version, u.revision);
    FoldedIdentity(id, u, u.sealed.version, u.revision);
    var enc := Reencrypt(aead, sourceKey, targetKey, nonce, u.sealed, aad);
    if enc.None? {
      return None;
    }
    var row := u.(sealed := Split(u.sealed.version, enc.value));
    FoldedIdentity(id, row, u.sealed.version, u.revision);
    assert RowRekeyed(aead, sourceKey, targetKey, id, u, row);
    written := Some(items[id := row]);
  }

  lemma AllItemsReadable(aead: Aead, sourceKey: Text, targetKey: Text, src: Database, dst: map<Text, ItemRow>)
    requires ItemsRekeyed(aead, sourceKey, targetKey, src.items, dst, src.items.Keys)
    ensures ItemsReadable(aead, sourceKey, src)
  {
    forall id | id in src.items ensures CurrentPlain(aead, sourceKey, src, id).Some? {
      assert RowRekeyed(aead, sourceKey, targetKey, id, src.items[id], dst[id]);
    }
  }

  lemma OneItemUnreadable(aead: Aead, key: Text, db: Database, id: Text)
    requires id in db.items && ItemPlain(aead, key, id, db.items[id]).None?
    ensures !ItemsReadable(aead, key, db)
  {
    assert CurrentPlain(aead, key, db, id).None?;
  }

  /** The current rows, in whatever order the map yields them. */
  method RekeyItems(aead: Aead, sourceKey: Text, targetKey: Text, nonceFor: nat -> Nonce, src: Database)
    returns (result: Option<map<Text, ItemRow>>, count: nat)
    requires aead.Correct()
    ensures result.Some? <==> ItemsReadable(aead, sourceKey, src)
    ensures result.Some? ==>
              && ItemsRekeyed(aead, sourceKey, targetKey, src.items, result.value, src.items.Keys)
              && count == |src.items|
  {
    var items := src.items;
    var todo := src.items.Keys;
    ghost var done: set<Text> := {};
    count := 0;
    assert ItemsRekeyed(aead, sourceKey, targetKey, src.items, items, done);
    hide *;
    while todo != {}
      invariant forall id :: id in src.items <==> id in todo || id in done
      invariant forall id :: id in todo ==> id !in done
      invariant count == |done|
      invariant ItemsRekeyed(aead, sourceKey, targetKey, src.items, items, done)
    {
      var id :| id in todo;
      var written := RekeyItem(aead, sourceKey, targetKey, nonceFor(count), src.items, items, id, done);
      if written.None? {
        OneItemUnreadable(aead, sourceKey, src, id);
        return None, count;
      }
      items := written.value;
      todo := todo - {id};
      done := done + {id};
      count := count + 1;
    }
    assert done == src.items.Keys;
    AllItemsReadable(aead, sourceKey, targetKey, src, items);
    result := Some(items);
  }

  /** The archived versions: every one is re-encrypted before any is written. */
  method ReadVersions(aead: Aead, sourceKey: Text, targetKey: Text, nonceFor: nat -> Nonce, src: Database)
    returns (result: Option<map<VersionKey, Text>>)
    requires aead.Correct()
    ensures result.Some? <==> VersionsReadable(aead, sourceKey, src)
    ensures result.Some? ==>
              && result.value.Keys == src.versions.Keys
              && forall v :: v in src.versions ==> Resealed(aead, sourceKey, targetKey, src, v, result.value[v])
  {
    var updates: map<VersionKey, Text> := map[];
    var unread := src.versions.Keys;
    while unread != {}
      invariant unread <= src.versions.Keys
      invariant updates.Keys == src.versions.Keys - unread
      invariant forall v :: v in updates ==> Resealed(aead, sourceKey, targetKey, src, v, updates[v])
    {
      var v :| v in unread;
      if v.0 !in src.items {
        assert ArchivedPlain(aead, sourceKey, src, v).None?;
        return None;
      }
      var it := src.items[v.0];
      var sealed := src.versions[v].sealed;
      var aad := AadFor(v.0, it.scope, FoldedSubject(it), [], sealed.version, v.1);
      FoldedIdentity(v.0, it, sealed.version, v.1);
      var nonce := nonceFor(|src.items| + |updates|);
      var enc := Reencrypt(aead, sourceKey, targetKey, nonce, sealed, aad);
      if enc.None? {
        assert ArchivedPlain(aead, sourceKey, src, v).None?;
        return None;
      }
      updates := updates[v := enc.value];
      unread := unread - {v};
    }
    forall v | v in src.versions ensures ArchivedPlain(aead, sourceKey, src, v).Some? {
      assert v in updates;
    }
    result := Some(updates);
  }

  method WriteVersions(versions: map<VersionKey, VersionRow>, updates: map<VersionKey, Text>)
    returns (written: map<VersionKey, VersionRow>, count: nat)
    requires updates.Keys == versions.Keys
    requires forall v :: v in updates ==> |updates[v]| >= HEADER_SIZE
    ensures written.Keys == versions.Keys && count == |versions|
    ensures forall v :: v in versions ==> written[v] == versions[v].(sealed :=
              Split(versions[v].sealed.version, updates[v]))
  {
    written := versions;
    var pending := updates.Keys;
    ghost var done: set<VersionKey> := {};
    count := 0;
    while pending != {}
      invariant forall v :: v in versions <==> v in pending || v in done
      invariant forall v :: v in pending ==> v !in done
      invariant count == |done|
      invariant written.Keys == versions.Keys
      invariant forall v :: v in versions && v in pending ==> written[v] == versions[v]
      invariant forall v :: v in versions && v !in pending ==> written[v] == versions[v].(sealed :=
                  Split(versions[v].sealed.version, updates[v]))
    {
      var v :| v in pending;
      var enc := updates[v];
      written := written[v := written[v].(sealed := Split(written[v].sealed.version, enc))];
      pending := pending - {v};
      done := done + {v};
      count := count + 1;
    }
    assert done == versions.Keys;
  }

  /** The three passes together make dst a re-encryption of src. */
  lemma PassesCompose(aead: Aead, sourceKey: Text, targetKey: Text, src: Database,
                      items: map<Text, ItemRow>, updates: map<VersionKey, Text>, dst: Database)
    requires ItemsRekeyed(aead, sourceKey, targetKey, src.items, items, src.items.Keys)
    requires updates.Keys == src.versions.Keys == dst.versions.Keys
    requires forall v :: v in src.versions ==> Resealed(aead, sourceKey, targetKey, src, v, updates[v])
    requires forall v :: v in src.versions ==> |updates[v]| >= HEADER_SIZE
    requires forall v :: v in src.versions ==> dst.versions[v] == src.versions[v].(sealed :=
               Split(src.versions[v].sealed.version, updates[v]))
    requires dst == src.(items := items, versions := dst.versions, sessions := {}, loginAttempts := {}, idempotencyKeys := {})
    ensures RekeyOf(aead, sourceKey, targetKey, src, dst)
  {
    forall v | v in src.versions
      ensures dst.versions[v] == src.versions[v].(sealed := dst.versions[v].sealed)
      ensures ArchivedPlain(aead, targetKey, dst, v) == ArchivedPlain(aead, sourceKey, src, v)
    {
      assert v.0 in src.items && items[v.0] == src.items[v.0].(sealed := items[v.0].sealed);
      var version := src.versions[v].sealed.version;
      assert RowAad(v.0, items[v.0], version, v.1) == RowAad(v.0, src.items[v.0], version, v.1);
      assert Resealed(aead, sourceKey, targetKey, src, v, updates[v]);
    }
  }

  /** A database file opened for writing. */
  class DatabaseFile {
    var content: Database

    constructor (content: Database)
      ensures this.content == content
    {
      this.content := content;
    }

    /** One transaction: read every payload, re-encrypt it under the same row
        identity, write the columns back, clear the authentication tables. It
        commits exactly when every payload is readable under the source key;
        otherwise the file is as it was. */
    method RekeyCandidate(aead: Aead, sourceKey: Text, targetKey: Text, nonceFor: nat -> Nonce)
      returns (result: Option<Report>)
      requires aead.Correct()
      modifies this
      ensures result.Some? <==> Readable(aead, sourceKey, old(content))
      ensures result.None? ==> content == old(content)
      ensures result.Some? ==>
                && RekeyOf(aead, sourceKey, targetKey, old(content), content)
                && result.value == Report(|old(content).items|, |old(content).versions|, |old(content).sessions|)
      // The tables that are carried over and those that are emptied.
      ensures result.Some? ==>
                && content.users == old(content).users && content.systemState == old(content).systemState
                && content.sessions == {} && content.loginAttempts == {} && content.idempotencyKeys == {}
                && content.items.Keys == old(content).items.Keys && content.versions.Keys == old(content).versions.Keys
                && (forall id :: id in content.items ==>
                      content.items[id] == old(content).items[id].(sealed := content.items[id].sealed))
    {
      var tx := content;
      ghost var src := content;
      var items, itemCount := RekeyItems(aead, sourceKey, targetKey, nonceFor, content);
      if items.None? {
        return None;
      }
      tx := tx.(items := items.value);
      var updates := ReadVersions(aead, sourceKey, targetKey, nonceFor, content);
      if updates.None? {
        return None;
      }
      assert forall v :: v in content.versions ==>
        Resealed(aead, sourceKey, targetKey, content, v, updates.value[v]);
      var versions, versionCount := WriteVersions(tx.versions, updates.value);
      tx := tx.(versions := versions);
      var cleared := |tx.sessions|;
      tx := tx.(sessions := {});
      tx := tx.(loginAttempts := {});
      tx := tx.(idempotencyKeys := {});
      PassesCompose(aead, sourceKey, targetKey, content, items.value, updates.value, tx);
      content := tx;
      result := Some(Report(itemCount, versionCount, cleared));
    }
  }

  /** `verifyCandidate` over `iteratePayloads`: walks every current row, then
      every archived version, and stops at the first that does not open. */
  method VerifyCandidate(aead: Aead, key: Text, db: Database) returns (ok: bool)
    ensures ok <==> Readable(aead, key, db)
  {
    var rows := db.items.Keys;
    while rows != {}
      invariant rows <= db.items.Keys
      invariant forall id :: id in db.items && id !in rows ==> CurrentPlain(aead, key, db, id).Some?
    {
      var id :| id in rows;
      var row := db.items[id];
      var aad := AadFor(id, row.scope, FoldedSubject(row), [], row.sealed.version, row.revision);
      FoldedIdentity(id, row, row.sealed.version, row.revision);
      if OpenColumns(aead, key, row.sealed, aad).None? {
        assert CurrentPlain(aead, key, db, id).None?;
        return false;
      }
      rows := rows - {id};
    }
    var archived := db.versions.Keys;
    while archived != {}
      invariant archived <= db.versions.Keys
      invariant forall v :: v in db.versions && v !in archived ==> ArchivedPlain(aead, key, db, v).Some?
    {
      var v :| v in archived;
      if v.0 !in db.items {
        assert ArchivedPlain(aead, key, db, v).None?;
        return false;
      }
      var row := db.items[v.0];
      var sealed := db.versions[v].sealed;
      var aad := AadFor(v.0, row.scope, FoldedSubject(row), [], sealed.version, v.1);
      FoldedIdentity(v.0, row, sealed.version, v.1);
      if OpenColumns(aead, key, sealed, aad).None? {
        assert ArchivedPlain(aead, key, db, v).None?;
        return false;
      }
      archived := archived - {v};
    }
    return true;
  }
}
