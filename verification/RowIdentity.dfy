/** Where a stored payload opens: at the row position it was sealed for and at
    no other (internal/vault/service.go, internal/platform/crypto/aad.go,
    internal/backup/restore.go). */
module RowIdentity {
  import opened Bytes
  import opened Wrappers
  import opened Payload
  import opened Rows
  import opened VaultState
  import opened Rekey
  import A = Aad

  /** The account a row is bound to: its owner, or its creator where the owner
      is absent or empty. */
  ghost predicate BoundTo(row: ItemRow, subject: Text) {
    if row.owner.Some? && row.owner.value != [] then row.owner.value == subject
    else if row.creator.Some? then row.creator.value == subject
    else subject == []
  }

  ghost predicate SameSubject(a: ItemRow, b: ItemRow) {
    forall subject :: BoundTo(a, subject) <==> BoundTo(b, subject)
  }

  /** Same item, same vault, same account, same revision. */
  ghost predicate SamePlace(id: Text, row: ItemRow, revision: nat, id': Text, row': ItemRow, revision': nat) {
    id == id' && row.scope == row'.scope && SameSubject(row, row') && revision == revision'
  }

  ghost predicate Short(t: Option<Text>) { t.Some? ==> |t.value| < A.FOUR_GIB }

  /** The sizes the encoding is made for. */
  ghost predicate Bounded(id: Text, row: ItemRow, revision: nat) {
    && |id| < A.FOUR_GIB && |row.scope| < A.FOUR_GIB && Short(row.owner) && Short(row.creator)
    && revision < 0x1_0000_0000_0000_0000
  }

  /** What the primitive opens under these data it does not open under those. */
  ghost predicate OpensOnce(raw: Primitive, key: Text, c: Columns, data: Text, other: Text) {
    data != other && raw.open(key, c.nonce, c.ciphertext, data).Some? ==> raw.open(key, c.nonce, c.ciphertext, other) == None
  }

  /** The additional data of a row position. */
  ghost function Data(id: Text, row: ItemRow, c: Columns, revision: nat): Text {
    A.Encoded(RowAad(id, row, c.version, revision))
  }

  /** Two positions have the same identity exactly when they are the same place. */
  lemma SameIdentityIff(id: Text, row: ItemRow, revision: nat, id': Text, row': ItemRow, revision': nat, version: nat)
    ensures RowAad(id, row, version, revision) == RowAad(id', row', version, revision')
            <==> SamePlace(id, row, revision, id', row', revision')
  {
    var a, b := RowAad(id, row, version, revision), RowAad(id', row', version, revision');
    assert BoundTo(row, a.subjectId) && BoundTo(row', b.subjectId);
    forall subject ensures BoundTo(row, subject) <==> subject == a.subjectId {}
    forall subject ensures BoundTo(row', subject) <==> subject == b.subjectId {}
  }

  /** On rows that meet the ownership constraint the account is the owner and
      the creator together. */
  lemma SameOwnership(a: ItemRow, b: ItemRow)
    requires Owned(a) && Owned(b) && a.scope == b.scope
    ensures SameSubject(a, b) <==> a.owner == b.owner && a.creator == b.creator
  {
    assert PERSONAL[0] != SHARED[0];
    assert BoundTo(a, if a.scope == PERSONAL then a.owner.value else a.creator.value);
  }

  /** Columns that open at one position open at another exactly when it is the
      same place. */
  lemma OpensOnlyThere(raw: Primitive, key: Text, c: Columns, id: Text, row: ItemRow, revision: nat,
                       id': Text, row': ItemRow, revision': nat)
    requires OpenColumns(OverIdentities(raw), key, c, RowAad(id, row, c.version, revision)).Some?
    requires Bounded(id, row, revision) && Bounded(id', row', revision')
    requires OpensOnce(raw, key, c, Data(id, row, c, revision), Data(id', row', c, revision'))
    ensures OpenColumns(OverIdentities(raw), key, c, RowAad(id', row', c.version, revision')).Some?
            <==> SamePlace(id, row, revision, id', row', revision')
  {
    var a, b := RowAad(id, row, c.version, revision), RowAad(id', row', c.version, revision');
    SameIdentityIff(id, row, revision, id', row', revision', c.version);
    if a != b && A.Encoded(a) == A.Encoded(b) {
      A.EncodedInjective(a, b);
    }
    hide A.Encoded, SamePlace;
  }

  /** A plaintext sealed for one position, read from columns that claim some
      payload version, at some position: it is there exactly when item, vault,
      account, payload version and revision all agree. */
  lemma SealedOpensExactlyThere(raw: Primitive, key: Text, nonce: Nonce, plaintext: Text, version: nat,
                                id: Text, row: ItemRow, revision: nat, id': Text, row': ItemRow, revision': nat)
    requires raw.Correct() && Bounded(id, row, revision) && Bounded(id', row', revision')
    requires var p := Encrypt(OverIdentities(raw), key, nonce, plaintext, RowAad(id, row, PAYLOAD_VERSION, revision));
             var c := Columns(p.version, p.nonce, p.ciphertext);
             OpensOnce(raw, key, c, Data(id, row, c, revision), Data(id', row', c, revision'))
    ensures var p := Encrypt(OverIdentities(raw), key, nonce, plaintext, RowAad(id, row, PAYLOAD_VERSION, revision));
            var c := Columns(version, p.nonce, p.ciphertext);
            OpenColumns(OverIdentities(raw), key, c, RowAad(id', row', version, revision'))
            == if SamePlace(id, row, revision, id', row', revision') && version == 1 then Some(plaintext) else None
  {
    OverIdentitiesCorrect(raw);
    SealedForRow(OverIdentities(raw), key, id, row, nonce, plaintext, revision);
    var p := Encrypt(OverIdentities(raw), key, nonce, plaintext, RowAad(id, row, PAYLOAD_VERSION, revision));
    var c := Columns(p.version, p.nonce, p.ciphertext);
    OpensOnlyThere(raw, key, c, id, row, revision, id', row', revision');
    SameIdentityIff(id, row, revision, id', row', revision', PAYLOAD_VERSION);
    hide SamePlace, RowAad;
  }

  // ----- in a sound vault -----

  /** The revisions whose payload is still stored. */
  ghost predicate Kept(it: Item, k: nat) { k == it.row.revision || k in it.versions }

  ghost function ColumnsAt(it: Item, k: nat): Columns
    requires Kept(it, k)
  {
    if k == it.row.revision then it.row.sealed else it.versions[k].sealed
  }

  /** A payload of a sound item, read at any place of any item, opens exactly at
      its own: not as another revision, not as another item, not once the item
      has another owner. */
  lemma KeptOpensOnlyThere(s: Sealer, raw: Primitive, id: Text, it: Item, k: nat, id': Text, it': Item, k': nat)
    requires s.aead == OverIdentities(raw) && Sound(s, id, it) && Kept(it, k) && Owned(it'.row)
    requires Bounded(id, it.row, k) && Bounded(id', it'.row, k')
    requires OpensOnce(raw, s.key, ColumnsAt(it, k), Data(id, it.row, ColumnsAt(it, k), k),
                       Data(id', it'.row, ColumnsAt(it, k), k'))
    ensures var c := ColumnsAt(it, k);
            OpenColumns(s.aead, s.key, c, RowAad(id', it'.row, c.version, k')).Some?
            <==> (&& id == id' && k == k' && it.row.scope == it'.row.scope
                  && it.row.owner == it'.row.owner && it.row.creator == it'.row.creator)
  {
    var c := ColumnsAt(it, k);
    OpensOnlyThere(raw, s.key, c, id, it.row, k, id', it'.row, k');
    if it.row.scope == it'.row.scope {
      SameOwnership(it.row, it'.row);
    }
    hide RowAad, SameSubject;
  }

  /** A row put back to an archived payload no longer decrypts, whatever else
      of it is kept. */
  lemma RolledBackRowFails(s: Sealer, raw: Primitive, id: Text, it: Item, k: nat)
    requires s.aead == OverIdentities(raw) && Sound(s, id, it) && k in it.versions
    requires Bounded(id, it.row, it.row.revision)
    requires var c := it.versions[k].sealed; OpensOnce(raw, s.key, c, Data(id, it.row, c, k), Data(id, it.row, c, it.row.revision))
    ensures ItemPlain(s.aead, s.key, id, it.row.(sealed := it.versions[k].sealed)) == None
    ensures ItemPlain(s.aead, s.key, id, it.row.(sealed := it.versions[k].sealed, revision := k)).Some?
  {
    KeptOpensOnlyThere(s, raw, id, it, k, id, it, it.row.revision);
  }

  // ----- in a database file -----

  /** A readable file in which one row took the payload of one of its versions
      is not readable: neither verification nor rekeying passes it. */
  lemma RolledBackFileFails(raw: Primitive, key: Text, db: Database, id: Text, k: nat)
    requires Readable(OverIdentities(raw), key, db) && id in db.items && (id, k) in db.versions && k != db.items[id].revision
    requires var row := db.items[id]; Bounded(id, row, row.revision) && Bounded(id, row, k)
    requires var row, c := db.items[id], db.versions[(id, k)].sealed;
             OpensOnce(raw, key, c, Data(id, row, c, k), Data(id, row, c, row.revision))
    ensures !Readable(OverIdentities(raw), key,
                      db.(items := db.items[id := db.items[id].(sealed := db.versions[(id, k)].sealed)]))
  {
    var row, c := db.items[id], db.versions[(id, k)].sealed;
    assert ArchivedPlain(OverIdentities(raw), key, db, (id, k)).Some?;
    OpensOnlyThere(raw, key, c, id, row, k, id, row, row.revision);
    var changed := db.(items := db.items[id := row.(sealed := c)]);
    assert CurrentPlain(OverIdentities(raw), key, changed, id) == None;
  }

  /** Nor is one in which a row took the payload of another item. */
  lemma SwappedFileFails(raw: Primitive, key: Text, db: Database, id: Text, id': Text)
    requires Readable(OverIdentities(raw), key, db) && id in db.items && id' in db.items && id != id'
    requires var a, b := db.items[id], db.items[id']; Bounded(id, a, a.revision) && Bounded(id', b, b.revision)
    requires var a, b := db.items[id], db.items[id'];
             OpensOnce(raw, key, a.sealed, Data(id, a, a.sealed, a.revision), Data(id', b, a.sealed, b.revision))
    ensures !Readable(OverIdentities(raw), key, db.(items := db.items[id' := db.items[id'].(sealed := db.items[id].sealed)]))
  {
    var a, b := db.items[id], db.items[id'];
    assert CurrentPlain(OverIdentities(raw), key, db, id).Some?;
    OpensOnlyThere(raw, key, a.sealed, id, a, a.revision, id', b, b.revision);
    var changed := db.(items := db.items[id' := b.(sealed := a.sealed)]);
    assert CurrentPlain(OverIdentities(raw), key, changed, id') == None;
  }
}
