/** Rows of the instance database (migrations/) and the row identity that every
    payload is bound to. */
module Rows {
  import opened Bytes
  import opened Wrappers
  import opened Payload
  import A = Aad

  /** The three columns a payload is stored in. */
  datatype Columns = Columns(version: nat, nonce: Text, ciphertext: Text)

  datatype ItemRow = ItemRow(
    scope: Text,
    owner: Option<Text>,
    creator: Option<Text>,
    itemType: Text,
    favorite: bool,
    sealed: Columns,
    revision: nat,
    createdAt: nat,
    updatedAt: nat,
    deletedAt: Option<nat>)

  datatype VersionRow = VersionRow(sealed: Columns, createdAt: nat)

  /** `AADFor`: the owner when there is one, else the creator. */
  function AadFor(id: Text, scope: Text, owner: Text, creator: Text, version: nat, revision: nat): A.Aad {
    var subject := if owner == [] then creator else owner;
    A.Aad(id, scope, subject, version, revision)
  }

  /** The AAD of a row as the vault service builds it. */
  function RowAad(id: Text, row: ItemRow, version: nat, revision: nat): A.Aad {
    AadFor(id, row.scope, row.owner.GetOr([]), row.creator.GetOr([]), version, revision)
  }

  /** The subject as the backup code folds it before calling `AADFor`. */
  function FoldedSubject(row: ItemRow): Text {
    var owner := row.owner.GetOr([]);
    if owner == [] then row.creator.GetOr([]) else owner
  }

  function OpenColumns(aead: Aead, key: Text, c: Columns, aad: A.Aad): Option<Text> {
    DecryptColumns(aead, key, c.version, c.nonce, c.ciphertext, aad)
  }

  /** The plaintext of a current row, if it authenticates under its own identity. */
  function ItemPlain(aead: Aead, key: Text, id: Text, row: ItemRow): Option<Text> {
    OpenColumns(aead, key, row.sealed, RowAad(id, row, row.sealed.version, row.revision))
  }

  /** The plaintext of an archived version: its own revision, its item's identity. */
  function VersionPlain(aead: Aead, key: Text, id: Text, row: ItemRow, revision: nat, v: VersionRow): Option<Text> {
    OpenColumns(aead, key, v.sealed, RowAad(id, row, v.sealed.version, revision))
  }

  /** Sealing a plaintext for a row position and opening it there again. */
  lemma SealedForRow(aead: Aead, key: Text, id: Text, row: ItemRow, nonce: Nonce, plaintext: Text, revision: nat)
    requires aead.Correct()
    ensures var p := Encrypt(aead, key, nonce, plaintext, RowAad(id, row, PAYLOAD_VERSION, revision));
            OpenColumns(aead, key, Columns(p.version, p.nonce, p.ciphertext),
                        RowAad(id, row, PAYLOAD_VERSION, revision)) == Some(plaintext)
  {
    SealedOpens(aead, key, nonce, plaintext, RowAad(id, row, PAYLOAD_VERSION, revision));
  }
}
