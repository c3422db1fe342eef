/** The item lifecycle: create, read, update, move between vaults, metadata
    changes, history restore, trash (internal/vault/service.go, history.go,
    trash.go, repository.go). A transaction that fails puts the table back. */
module VaultService {
  import opened Bytes
  import opened Wrappers
  import opened Payload
  import opened Rows
  import opened VaultState

  const MAX_PAYLOAD_BYTES: nat := 256 * 1024
  const TRASH_RETENTION: nat := 30 * 24 * 3600

  datatype Error =
    | NotFound | Forbidden | InvalidScope | PayloadInvalid | PayloadTooLarge | ReferenceForbidden
    | RevisionConflict(current: nat) | AuditFailed

  datatype Applied = Applied | Missed | Duplicate

  /** An update request. A payload is None when it fails its type's grammar;
      tags and favorite are None when the request leaves them out. */
  datatype UpdateInput = UpdateInput(
    revision: nat,
    tags: Option<seq<Text>>,
    favorite: Option<bool>,
    payload: Option<Content>,
    scope: Option<Text>)

  // ----- policy -----

  predicate CanRead(actor: Text, row: ItemRow) {
    actor != [] && (row.scope == SHARED || row.owner == Some(actor))
  }

  /** The owner of a personal item, the creator of a shared one. */
  predicate IsSelf(actor: Text, row: ItemRow) {
    && actor != []
    && ((row.scope == PERSONAL && row.owner == Some(actor)) || (row.scope == SHARED && row.creator == Some(actor)))
  }

  /** An item of the vault is read by whom it is shared with or owned by, and
      changed by the one account its row names. */
  lemma PolicyMeans(actor: Text, row: ItemRow)
    requires Owned(row)
    ensures CanRead(actor, row) <==> actor != [] && (row.creator.Some? || row.owner == Some(actor))
    ensures IsSelf(actor, row) <==> row.owner == Some(actor) || row.creator == Some(actor)
    ensures IsSelf(actor, row) ==> CanRead(actor, row)
  {
    assert PERSONAL[0] != SHARED[0];
  }

  predicate Readable(table: map<Text, Item>, actor: Text, id: Text) {
    id in table && table[id].row.deletedAt.None? && CanRead(actor, table[id].row)
  }

  predicate Writable(table: map<Text, Item>, actor: Text, id: Text) {
    Readable(table, actor, id) && IsSelf(actor, table[id].row)
  }

  /** A card's billing address, if it names one, is a readable identity that
      everyone who reads the card can read. A trashed target passes. */
  predicate ReferenceAllowed(table: map<Text, Item>, actor: Text, scope: Text, c: Content) {
    (c.kind == CREDIT_CARD && c.billing.Some?) ==>
      && c.billing.value in table
      && var target := table[c.billing.value].row;
      && target.itemType == IDENTITY && CanRead(actor, target)
      && (scope == SHARED ==> target.scope == SHARED)
  }

  /** Who owns what an actor creates. */
  function OwnerOf(actor: Text, scope: Text): Option<Text> { if scope == PERSONAL then Some(actor) else None }
  function CreatorOf(actor: Text, scope: Text): Option<Text> { if scope == PERSONAL then None else Some(actor) }

  function NewRow(actor: Text, scope: Text, itemType: Text, favorite: bool, sealed: Columns, at: nat): ItemRow {
    ItemRow(scope, OwnerOf(actor, scope), CreatorOf(actor, scope), itemType, favorite, sealed, 1, at, at, None)
  }

  function Latest(it: Item): Envelope
    requires it.log != []
  {
    it.log[|it.log| - 1]
  }

  /** What an update of the item would store. */
  function Submitted(it: Item, input: UpdateInput): Envelope
    requires it.log != [] && input.payload.Some?
  {
    Envelope(SCHEMA_VERSION, input.tags.GetOr(Latest(it).tags), input.payload.value)
  }

  function FavoriteAfter(it: Item, input: UpdateInput): bool { input.favorite.GetOr(it.row.favorite) }

  /** The payload fits the item, the reference is allowed where it will live, and
      it is not too large. */
  predicate Acceptable(s: Sealer, table: map<Text, Item>, actor: Text, scope: Text, it: Item, input: UpdateInput)
    requires it.log != []
  {
    && input.payload.Some? && input.payload.value.kind == it.row.itemType
    && ReferenceAllowed(table, actor, scope, input.payload.value)
    && |s.marshal(Submitted(it, input))| <= MAX_PAYLOAD_BYTES
  }

  predicate ScopeOk(input: UpdateInput) {
    input.scope.Some? ==> input.scope.value == PERSONAL || input.scope.value == SHARED
  }

  predicate Moves(it: Item, input: UpdateInput) { input.scope.Some? && input.scope.value != it.row.scope }

  /** Neither the envelope nor the favorite flag would change. */
  predicate Ineffective(it: Item, input: UpdateInput)
    requires it.log != [] && input.payload.Some?
  {
    !Moves(it, input) && Submitted(it, input) == Latest(it) && FavoriteAfter(it, input) == it.row.favorite
  }

  class VaultTables {
    const s: Sealer
    var table: map<Text, Item>

    ghost predicate Valid()
      reads this
    {
      && s.Correct()
      && forall id :: id in table ==> Sound(s, id, table[id])
    }

    constructor (s: Sealer)
      requires s.Correct()
      ensures Valid() && table == map[] && this.s == s
    {
      this.s, table := s, map[];
    }

    // ----- repository -----

    /** Seals an envelope for a row position. */
    method Seal(id: Text, row: ItemRow, revision: nat, nonce: Nonce, e: Envelope) returns (sealed: Columns)
      requires s.Correct() && e.version == SCHEMA_VERSION && e.content.kind == row.itemType
      ensures Holds(s, id, row, revision, sealed, e)
    {
      var p := Encrypt(s.aead, s.key, nonce, s.marshal(e), RowAad(id, row, PAYLOAD_VERSION, revision));
      sealed := Columns(p.version, p.nonce, p.ciphertext);
      SealedHolds(s, id, row, nonce, revision, e);
    }

    /** `decryptRow`: in a valid vault it never fails. */
    method DecryptRow(id: Text) returns (r: Option<Envelope>)
      requires Valid() && id in table
      ensures r == Some(Latest(table[id]))
    {
      var row := table[id].row;
      var raw := OpenColumns(s.aead, s.key, row.sealed, RowAad(id, row, row.sealed.version, row.revision));
      if raw.None? {
        return None;
      }
      r := s.unmarshal(raw.value);
      if r.Some? && (r.value.version != SCHEMA_VERSION || r.value.content.kind != row.itemType) {
        r := None;
      }
    }

    /** `updateItem`: archive what the caller read, flip the row if it is still
        at that revision, prune. Only `Applied` may be committed. */
    method UpdateItem(id: Text, current: ItemRow, sealed: Columns, favorite: bool, at: nat, e: Envelope)
      returns (r: Applied)
      requires id in table
      modifies this`table
      ensures r == Duplicate <==> current.revision in old(table)[id].versions
      ensures r == Applied <==> (&& current.revision !in old(table)[id].versions
                                 && old(table)[id].row.revision == current.revision
                                 && old(table)[id].row.deletedAt.None?)
      ensures var was := old(table)[id];
              r == Applied && current == was.row ==> table == old(table)[id := Written(was, sealed, favorite, at, e)]
    {
      var it := table[id];
      if current.revision in it.versions {
        return Duplicate;
      }
      it := it.(versions := it.versions[current.revision := VersionRow(current.sealed, current.updatedAt)]);
      table := table[id := it];
      if !(it.row.revision == current.revision && it.row.deletedAt.None?) {
        return Missed;
      }
      it := it.(row := Flipped(it.row, sealed, favorite, at), log := it.log + [e]);
      it := it.(versions := Pruned(it.versions));
      table := table[id := it];
      return Applied;
    }

    /** The tail shared by every effective change: seal under the next
        revision, update, audit; roll back on failure. The row was read in the
        same transaction, so the update cannot miss. */
    method Reseal(id: Text, e: Envelope, favorite: bool, nonce: Nonce, at: nat, audited: bool) returns (r: Option<Error>)
      requires Valid() && id in table && table[id].row.deletedAt.None?
      requires e.version == SCHEMA_VERSION && e.content.kind == table[id].row.itemType
      modifies this`table
      ensures Valid()
      ensures r.None? <==> audited
      ensures r.None? ==>
                && id in table
                && table == old(table)[id := Written(old(table)[id], table[id].row.sealed, favorite, at, e)]
      ensures r.None? ==>
                var was, now := old(table)[id], table[id];
                && now.row == was.row.(sealed := now.row.sealed, revision := was.row.revision + 1, favorite := favorite, updatedAt := at)
                && now.log == was.log + [e]
      ensures r.Some? ==> table == old(table) && r == Some(AuditFailed)
    {
      hide Written, Opens, Holds;
      var was := table;
      var row := table[id].row;
      var sealed := Seal(id, row, row.revision + 1, nonce, e);
      ghost var it := table[id];
      assert Sound(s, id, it);
      WrittenSound(s, id, it, sealed, favorite, at, e);
      var applied := UpdateItem(id, row, sealed, favorite, at, e);
      assert applied == Applied;
      assert table[id] == Written(it, sealed, favorite, at, e);
      WrittenRow(it, sealed, favorite, at, e);
      if !audited {
        table := was;
        return Some(AuditFailed);
      }
      return None;
    }

    // ----- the lifecycle -----

    method Create(actor: Text, id: Text, itemType: Text, scope: Text, tags: seq<Text>, favorite: bool,
                  payload: Option<Content>, nonce: Nonce, at: nat, audited: bool)
      returns (r: Result<Envelope, Error>)
      requires Valid() && id !in table
      requires payload.Some? ==> payload.value.kind == itemType
      modifies this`table
      ensures Valid()
      ensures r.Err? ==> table == old(table)
      ensures r.Ok? <==> (&& (scope == PERSONAL || scope == SHARED) && payload.Some? && actor != [] && audited
                          && ReferenceAllowed(old(table), actor, scope, payload.value)
                          && |s.marshal(Envelope(SCHEMA_VERSION, tags, payload.value))| <= 256 * 1024)
      ensures r.Ok? ==> && r.value == Envelope(SCHEMA_VERSION, tags, payload.value) && id in table
                        && table == old(table)[id := Fresh(NewRow(actor, scope, itemType, favorite, table[id].row.sealed, at), r.value)]
      ensures r.Ok? ==>
                && table[id].versions == map[] && table[id].log == [r.value]
                && var now := table[id].row;
                && now.scope == scope && now.itemType == itemType && now.favorite == favorite && now.revision == 1
                && now.createdAt == at && now.updatedAt == at && now.deletedAt.None?
                && (scope == PERSONAL ==> now.owner == Some(actor) && now.creator.None?)
                && (scope == SHARED ==> now.owner.None? && now.creator == Some(actor))
      ensures r.Ok? && itemType == CREDIT_CARD && payload.value.billing.Some? ==>
                && payload.value.billing.value in old(table)
                && var target := old(table)[payload.value.billing.value].row;
                && target.itemType == IDENTITY && (target.scope == SHARED || (target.owner == Some(actor) && scope != SHARED))
    {
      hide Opens, Holds;
      if scope != PERSONAL && scope != SHARED {
        return Err(InvalidScope);
      }
      if payload.None? {
        return Err(PayloadInvalid);
      }
      if actor == [] {
        return Err(Forbidden);
      }
      if !ReferenceAllowed(table, actor, scope, payload.value) {
        return Err(ReferenceForbidden);
      }
      var e := Envelope(SCHEMA_VERSION, tags, payload.value);
      if |s.marshal(e)| > MAX_PAYLOAD_BYTES {
        return Err(PayloadTooLarge);
      }
      var blank := NewRow(actor, scope, itemType, favorite, Columns(0, [], []), at);
      var sealed := Seal(id, blank, 1, nonce, e);
      var row := NewRow(actor, scope, itemType, favorite, sealed, at);
      HoldsElsewhere(s, id, blank, row, 1, sealed, e);
      FreshSound(s, id, row, e);
      if !audited {
        return Err(AuditFailed);
      }
      table := table[id := Fresh(row, e)];
      return Ok(e);
    }

    method Get(actor: Text, id: Text) returns (r: Result<Envelope, Error>)
      requires Valid()
      ensures r.Ok? <==> Readable(table, actor, id)
      ensures r.Ok? <==> (&& id in table && table[id].row.deletedAt.None? && actor != []
                          && (table[id].row.creator.Some? || table[id].row.owner == Some(actor)))
      ensures r.Ok? ==> && r.value == Latest(table[id])
                        && table[id].row.revision == |table[id].log| && r.value == table[id].log[table[id].row.revision - 1]
      ensures r.Err? ==> r.error == NotFound
    {
      if id in table {
        PolicyMeans(actor, table[id].row);
      }
      if id !in table || table[id].row.deletedAt.Some? || !CanRead(actor, table[id].row) {
        return Err(NotFound);
      }
      var e := DecryptRow(id);
      return Ok(e.value);
    }

    /** `updateOnce`: the client's revision is the optimistic lock. Returns
        where the content now lives. */
    method Update(actor: Text, id: Text, input: UpdateInput, targetId: Text, nonce: Nonce, at: nat, audited: bool)
      returns (r: Result<Text, Error>)
      requires Valid() && targetId !in table
      modifies this`table
      ensures Valid()
      ensures r.Err? ==> table == old(table)
      ensures r.Ok? <==> (&& input.revision >= 1 && ScopeOk(input) && Writable(old(table), actor, id)
                          && var was := old(table)[id];
                             && was.row.revision == input.revision
                             && Acceptable(s, old(table), actor, input.scope.GetOr(was.row.scope), was, input)
                             && (audited || Ineffective(was, input)))
      ensures (exists c :: r == Err(RevisionConflict(c))) <==>
                (&& input.revision >= 1 && ScopeOk(input)
                 && Writable(old(table), actor, id) && old(table)[id].row.revision != input.revision)
      ensures r.Err? && r.error.RevisionConflict? ==> id in table && r.error.current == table[id].row.revision
      ensures r.Ok? ==>
                var was := old(table)[id];
                var e, favorite := Submitted(was, input), FavoriteAfter(was, input);
                if Moves(was, input)
                then && r.value == targetId && targetId in table
                     && table == (old(table) - {id})[targetId :=
                          Fresh(NewRow(actor, input.scope.value, was.row.itemType, favorite, table[targetId].row.sealed, at), e)]
                else && r.value == id
                     && if Ineffective(was, input) then table == old(table)
                        else id in table && table == old(table)[id := Written(was, table[id].row.sealed, favorite, at, e)]
      ensures r.Ok? && table != old(table) ==>
                && id in old(table) && r.value in table && input.payload.Some?
                && var was, now := old(table)[id], table[r.value];
                && (input.favorite.Some? ==> now.row.favorite == input.favorite.value)
                && (input.favorite.None? ==> now.row.favorite == was.row.favorite)
                && now.log != [] && Latest(now).content == input.payload.value
                && (input.tags.Some? ==> Latest(now).tags == input.tags.value)
                && (input.tags.None? && was.log != [] ==> Latest(now).tags == Latest(was).tags)
                && (r.value == id ==> now.row == was.row.(sealed := now.row.sealed, revision := was.row.revision + 1,
                                                          favorite := now.row.favorite, updatedAt := at))
                && (r.value != id ==>
                      && id !in table && now.versions == map[] && |now.log| == 1 && input.scope == Some(now.row.scope)
                      && now.row == ItemRow(now.row.scope, now.row.owner, now.row.creator, was.row.itemType,
                                            now.row.favorite, now.row.sealed, 1, at, at, None)
                      && (now.row.scope == PERSONAL ==> now.row.owner == Some(actor) && now.row.creator.None?)
                      && (now.row.scope == SHARED ==> now.row.owner.None? && now.row.creator == Some(actor)))
    {
      hide Opens, Holds, Written, Fresh, NewRow, ReferenceAllowed, PERSONAL, SHARED, IsSelf;
      if input.revision < 1 {
        return Err(PayloadInvalid);
      }
      if input.scope.Some? && input.scope.value != PERSONAL && input.scope.value != SHARED {
        return Err(InvalidScope);
      }
      if !Readable(table, actor, id) {
        return Err(NotFound);
      }
      var row := table[id].row;
      if !IsSelf(actor, row) {
        return Err(Forbidden);
      }
      if row.revision != input.revision {
        return Err(RevisionConflict(row.revision));
      }
      if input.scope.Some? && input.scope.value != row.scope {
        r := Move(actor, id, input, targetId, nonce, at, audited);
        return;
      }
      if input.payload.None? || input.payload.value.kind != row.itemType {
        return Err(PayloadInvalid);
      }
      if !ReferenceAllowed(table, actor, row.scope, input.payload.value) {
        return Err(ReferenceForbidden);
      }
      var current := DecryptRow(id);
      var tags, favorite := input.tags.GetOr(current.value.tags), input.favorite.GetOr(row.favorite);
      var e := Envelope(SCHEMA_VERSION, tags, input.payload.value);
      if |s.marshal(e)| > MAX_PAYLOAD_BYTES {
        return Err(PayloadTooLarge);
      }
      if s.marshal(e) == s.marshal(current.value) && favorite == row.favorite {
        assert s.unmarshal(s.marshal(e)) == s.unmarshal(s.marshal(current.value));
        return Ok(id);
      }
      var failed := Reseal(id, e, favorite, nonce, at, audited);
      if failed.Some? {
        return Err(failed.value);
      }
      return Ok(id);
    }

    /** `moveOnce`: a new item under its new identity replaces the source; the
        sealed source row is never rewritten in place. */
    method Move(actor: Text, id: Text, input: UpdateInput, targetId: Text, nonce: Nonce, at: nat, audited: bool)
      returns (r: Result<Text, Error>)
      requires Valid() && targetId !in table && Writable(table, actor, id)
      requires input.scope.Some? && (input.scope.value == PERSONAL || input.scope.value == SHARED)
      requires table[id].row.revision == input.revision
      modifies this`table
      ensures Valid()
      ensures r.Err? ==> table == old(table) && !r.error.RevisionConflict?
      ensures r.Ok? <==> audited && Acceptable(s, old(table), actor, input.scope.value, old(table)[id], input)
      ensures r.Ok? ==> r.value == targetId && targetId in table
      ensures r.Ok? ==>
                var was := old(table)[id];
                table == (old(table) - {id})[targetId :=
                  Fresh(NewRow(actor, input.scope.value, was.row.itemType, FavoriteAfter(was, input),
                               table[targetId].row.sealed, at), Submitted(was, input))]
      ensures r.Ok? ==>
                var was, now := old(table)[id], table[targetId];
                && now.versions == map[] && now.log == [Submitted(was, input)]
                && now.row == ItemRow(input.scope.value, now.row.owner, now.row.creator, was.row.itemType,
                                      FavoriteAfter(was, input), now.row.sealed, 1, at, at, None)
                && (now.row.scope == PERSONAL ==> now.row.owner == Some(actor) && now.row.creator.None?)
                && (now.row.scope == SHARED ==> now.row.owner.None? && now.row.creator == Some(actor))
    {
      hide Opens, Holds;
      var was := table;
      var source := table[id].row;
      var scope := input.scope.value;
      if input.payload.None? || input.payload.value.kind != source.itemType {
        return Err(PayloadInvalid);
      }
      if !ReferenceAllowed(table, actor, scope, input.payload.value) {
        return Err(ReferenceForbidden);
      }
      var current := DecryptRow(id);
      var tags, favorite := input.tags.GetOr(current.value.tags), input.favorite.GetOr(source.favorite);
      var e := Envelope(SCHEMA_VERSION, tags, input.payload.value);
      if |s.marshal(e)| > MAX_PAYLOAD_BYTES {
        return Err(PayloadTooLarge);
      }
      var blank := NewRow(actor, scope, source.itemType, favorite, Columns(0, [], []), at);
      var sealed := Seal(targetId, blank, 1, nonce, e);
      var target := NewRow(actor, scope, source.itemType, favorite, sealed, at);
      HoldsElsewhere(s, targetId, blank, target, 1, sealed, e);
      FreshSound(s, targetId, target, e);
      table := table[targetId := Fresh(target, e)];
      if !audited {
        table := was;
        return Err(AuditFailed);
      }
      table := table - {id};
      assert table == (was - {id})[targetId := Fresh(target, e)];
      return Ok(targetId);
    }

    /** `applyMetadataChange`: favorite and tags, as an ordinary effective
        update without a client revision. */
    method ChangeMetadata(actor: Text, id: Text, favorite: Option<bool>, tags: Option<seq<Text>>, nonce: Nonce, at: nat, audited: bool)
      returns (r: Option<Error>)
      requires Valid()
      modifies this`table
      ensures Valid()
      ensures r.Some? ==> table == old(table)
      ensures r.None? ==>
                && Writable(old(table), actor, id) && id in table
                && var was := old(table)[id];
                   var e := Latest(was).(tags := tags.GetOr(Latest(was).tags));
                   var mark := favorite.GetOr(was.row.favorite);
                   if e == Latest(was) && mark == was.row.favorite then table == old(table)
                   else table == old(table)[id := Written(was, table[id].row.sealed, mark, at, e)]
      ensures r.None? ==>
                && id in old(table) && id in table
                && var was, now := old(table)[id], table[id];
                && (favorite.Some? ==> now.row.favorite == favorite.value)
                && (favorite.None? ==> now.row.favorite == was.row.favorite)
                && was.log != [] && now.log != [] && Latest(now).content == Latest(was).content
                && (tags.Some? ==> Latest(now).tags == tags.value)
                && (tags.None? ==> Latest(now).tags == Latest(was).tags)
                && (table != old(table) ==>
                      now.row == was.row.(sealed := now.row.sealed, revision := was.row.revision + 1,
                                          favorite := now.row.favorite, updatedAt := at))
      ensures r.None? <==>
                (&& Writable(old(table), actor, id)
                 && var was := old(table)[id];
                    var e := Latest(was).(tags := tags.GetOr(Latest(was).tags));
                    && |s.marshal(e)| <= MAX_PAYLOAD_BYTES
                    && (audited || (e == Latest(was) && favorite.GetOr(was.row.favorite) == was.row.favorite)))
      ensures r == Some(NotFound) <==> !Readable(old(table), actor, id)
      ensures r == Some(Forbidden) <==> Readable(old(table), actor, id) && !Writable(old(table), actor, id)
    {
      hide Opens, Holds, Written;
      if !Readable(table, actor, id) {
        return Some(NotFound);
      }
      var row := table[id].row;
      if !IsSelf(actor, row) {
        return Some(Forbidden);
      }
      var current := DecryptRow(id);
      var e := Envelope(SCHEMA_VERSION, tags.GetOr(current.value.tags), current.value.content);
      var mark := favorite.GetOr(row.favorite);
      if |s.marshal(e)| > MAX_PAYLOAD_BYTES {
        return Some(PayloadTooLarge);
      }
      if s.marshal(e) == s.marshal(current.value) && mark == row.favorite {
        assert s.unmarshal(s.marshal(e)) == s.unmarshal(s.marshal(current.value));
        return None;
      }
      r := Reseal(id, e, mark, nonce, at, audited);
    }

    /** `RestoreHistory`: the archived content, opened under its own revision,
        becomes current at the next one; the favorite flag stays. */
    method RestoreHistory(actor: Text, id: Text, revision: nat, nonce: Nonce, at: nat, audited: bool)
      returns (r: Result<Envelope, Error>)
      requires Valid()
      modifies this`table
      ensures Valid()
      ensures r.Err? ==> table == old(table)
      ensures r.Ok? <==> (&& Writable(old(table), actor, id) && audited
                          && Oldest(old(table)[id].row.revision) <= revision < old(table)[id].row.revision)
      ensures r.Ok? ==>
                && id in table && var was := old(table)[id];
                && r.value == was.log[revision - 1]
                && table == old(table)[id := Written(was, table[id].row.sealed, was.row.favorite, at, r.value)]
                && Latest(table[id]) == r.value
                && table[id].row == was.row.(sealed := table[id].row.sealed, revision := was.row.revision + 1, updatedAt := at)
    {
      hide Holds;
      if revision == 0 {
        return Err(NotFound);
      }
      if !Readable(table, actor, id) {
        return Err(NotFound);
      }
      var it := table[id];
      if !IsSelf(actor, it.row) {
        return Err(Forbidden);
      }
      if revision !in it.versions {
        return Err(NotFound);
      }
      var archived := it.versions[revision];
      var plain := OpenColumns(s.aead, s.key, archived.sealed, RowAad(id, it.row, archived.sealed.version, revision));
      assert Sound(s, id, it);
      assert plain == Some(s.marshal(it.log[revision - 1]));
      var e := s.unmarshal(plain.value);
      assert it.log[revision - 1] in it.log;
      var failed := Reseal(id, e.value, it.row.favorite, nonce, at, audited);
      if failed.Some? {
        return Err(failed.value);
      }
      hide Pruned;
      return Ok(e.value);
    }

    // ----- the trash -----

    method Trash(actor: Text, id: Text, at: nat, audited: bool) returns (r: Option<Error>)
      requires Valid()
      modifies this`table
      ensures Valid()
      ensures r.None? <==> Writable(old(table), actor, id) && audited
      ensures table == if r.None? then old(table)[id := Marked(old(table)[id], Some(at))] else old(table)
      ensures r.None? ==>
                && id in old(table) && id in table && old(table)[id].row.deletedAt.None?
                && table[id] == old(table)[id].(row := old(table)[id].row.(deletedAt := Some(at)))
    {
      if !Readable(table, actor, id) {
        return Some(NotFound);
      }
      if !IsSelf(actor, table[id].row) {
        return Some(Forbidden);
      }
      if !audited {
        return Some(AuditFailed);
      }
      MarkedSound(s, id, table[id], Some(at));
      table := table[id := Marked(table[id], Some(at))];
      return None;
    }

    /** Brings an item back exactly as it was trashed. */
    method RestoreTrashed(actor: Text, id: Text, audited: bool) returns (r: Option<Error>)
      requires Valid()
      modifies this`table
      ensures Valid()
      ensures r.None? <==> id in old(table) && IsSelf(actor, old(table)[id].row) && old(table)[id].row.deletedAt.Some? && audited
      ensures table == if r.None? then old(table)[id := Marked(old(table)[id], None)] else old(table)
      ensures r.None? ==>
                && id in table && old(table)[id].row.deletedAt.Some?
                && table[id] == old(table)[id].(row := old(table)[id].row.(deletedAt := None))
    {
      if id !in table || !CanRead(actor, table[id].row) {
        return Some(NotFound);
      }
      if !IsSelf(actor, table[id].row) {
        return Some(Forbidden);
      }
      if table[id].row.deletedAt.None? {
        return Some(NotFound);
      }
      if !audited {
        return Some(AuditFailed);
      }
      MarkedSound(s, id, table[id], None);
      table := table[id := Marked(table[id], None)];
      return None;
    }

    method Purge(actor: Text, id: Text, audited: bool) returns (r: Option<Error>)
      requires Valid()
      modifies this`table
      ensures Valid()
      ensures r.None? <==> id in old(table) && IsSelf(actor, old(table)[id].row) && old(table)[id].row.deletedAt.Some? && audited
      ensures table == if r.None? then old(table) - {id} else old(table)
    {
      if id !in table || !CanRead(actor, table[id].row) {
        return Some(NotFound);
      }
      if !IsSelf(actor, table[id].row) {
        return Some(Forbidden);
      }
      if table[id].row.deletedAt.None? {
        return Some(NotFound);
      }
      if !audited {
        return Some(AuditFailed);
      }
      table := table - {id};
      return None;
    }

    /** `PurgeExpiredTrash`, times in seconds; `auditFails` is the item whose
        audit record fails, if any. */
    method PurgeExpiredTrash(now: int, auditFails: Option<Text>) returns (r: Result<nat, Error>)
      requires Valid()
      modifies this`table
      ensures Valid()
      ensures r.Err? ==> table == old(table)
      ensures r.Ok? ==> table == map id | id in old(table) && !ExpiredTrash(old(table)[id], now) :: old(table)[id]
      ensures r.Ok? ==> forall id :: id in old(table) ==>
                (id in table <==> old(table)[id].row.deletedAt.None? || now - old(table)[id].row.deletedAt.value < 30 * 24 * 3600)
      ensures r.Ok? ==> r.value == |old(table)| - |table|
    {
      hide Sound;
      var was := table;
      var ids := set id | id in table && ExpiredTrash(table[id], now);
      var todo, n := ids, 0;
      while todo != {}
        invariant todo <= ids && todo <= table.Keys
        invariant forall id :: id in was ==> (id in table <==> id !in ids || id in todo)
        invariant forall id :: id in table ==> id in was && table[id] == was[id]
        invariant n + |table| == |was|
        decreases todo
      {
        var id :| id in todo;
        if auditFails == Some(id) {
          table := was;
          return Err(AuditFailed);
        }
        assert table == (table - {id})[id := table[id]];
        table := table - {id};
        n := n + 1;
        todo := todo - {id};
      }
      r := Ok(n);
    }

    /** A deleted member takes along the items they own or created. */
    method DeleteMember(user: Text)
      requires Valid()
      modifies this`table
      ensures Valid()
      ensures table == map id | id in old(table) && !BelongsTo(old(table)[id].row, user) :: old(table)[id]
      ensures forall id :: id in table <==>
                id in old(table) && old(table)[id].row.owner != Some(user) && old(table)[id].row.creator != Some(user)
    {
      table := map id | id in table && !BelongsTo(table[id].row, user) :: table[id];
    }
  }

  predicate ExpiredTrash(it: Item, now: int) {
    it.row.deletedAt.Some? && it.row.deletedAt.value <= now - TRASH_RETENTION
  }

  predicate BelongsTo(row: ItemRow, user: Text) { row.owner == Some(user) || row.creator == Some(user) }

  /** What columns hold for a row does not depend on the columns of the row. */
  lemma HoldsElsewhere(s: Sealer, id: Text, a: ItemRow, b: ItemRow, revision: nat, sealed: Columns, e: Envelope)
    requires Holds(s, id, a, revision, sealed, e)
    requires a.scope == b.scope && a.owner == b.owner && a.creator == b.creator && a.itemType == b.itemType
    ensures Holds(s, id, b, revision, sealed, e)
  {
  }

  lemma WrittenRow(it: Item, sealed: Columns, favorite: bool, at: nat, e: Envelope)
    ensures Written(it, sealed, favorite, at, e).row == Flipped(it.row, sealed, favorite, at)
    ensures Written(it, sealed, favorite, at, e).log == it.log + [e]
  {
  }

  /** Two clients that read the same revision: the one that comes second is told
      where the item is now, and the first one's content stays. */
  method TwoWriters(v: VaultTables, a: Text, b: Text, id: Text, first: UpdateInput, second: UpdateInput,
                    spare: Text, nonce: Nonce, at: nat)
    returns (one: Result<Text, Error>, two: Result<Text, Error>)
    requires v.Valid() && spare !in v.table && id in v.table
    requires first.revision == second.revision && first.scope == None == second.scope
    requires first.payload.Some? && first.payload.value != Latest(v.table[id]).content
    modifies v`table
    ensures v.Valid()
    ensures one.Ok? ==> two.Err? && id in v.table && v.table[id].row.revision == first.revision + 1
                        && Latest(v.table[id]).content == first.payload.value
    ensures one.Ok? && old(Writable(v.table, b, id)) ==> two == Err(RevisionConflict(first.revision + 1))
  {
    hide Opens, Holds, Pruned, VaultTables.Valid;
    one := v.Update(a, id, first, spare, nonce, at, true);
    two := v.Update(b, id, second, spare, nonce, at, true);
  }

  /** Restoring the revision an update superseded brings its content back, one
      revision further on; the update itself stays in the history. */
  method UndoUpdate(v: VaultTables, actor: Text, id: Text, input: UpdateInput, spare: Text, nonce: Nonce, at: nat)
    returns (done: bool)
    requires v.Valid() && spare !in v.table && id in v.table
    requires input.scope == None && input.payload.Some? && input.payload.value != Latest(v.table[id]).content
    modifies v`table
    ensures v.Valid()
    ensures done ==>
              && id in v.table
              && v.table[id].row.revision == old(v.table[id]).row.revision + 2
              && Latest(v.table[id]) == old(Latest(v.table[id]))
              && v.table[id].log[v.table[id].row.revision - 2].content == input.payload.value
    ensures !done ==> v.table == old(v.table)
  {
    hide Opens, Holds, Pruned;
    ghost var was := v.table[id];
    assert Sound(v.s, id, was);
    var r := v.Update(actor, id, input, spare, nonce, at, true);
    if r.Err? {
      return false;
    }
    var restored := v.RestoreHistory(actor, id, input.revision, nonce, at, true);
    assert restored.Ok?;
    return true;
  }
}
