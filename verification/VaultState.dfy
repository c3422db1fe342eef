/** The vault tables, what a sound vault is, and the effective write: archive,
    flip, prune (internal/vault/repository.go). */
module VaultState {
  import opened Bytes
  import opened Wrappers
  import opened Payload
  import opened Rows

  const MAX_HISTORY: nat := 10
  const SCHEMA_VERSION: nat := 1
  const PERSONAL := Ascii("personal")
  const SHARED := Ascii("shared")
  const CREDIT_CARD := Ascii("credit_card")
  const IDENTITY := Ascii("identity")

  /** The typed payload of one item: its kind, its own fields and the one
      cross-item reference there is. */
  datatype Content = Content(kind: Text, fields: Text, billing: Option<Text>)

  /** What a ciphertext holds. */
  datatype Envelope = Envelope(version: nat, tags: seq<Text>, content: Content)

  /** The key, the cipher and the envelope's JSON form. */
  datatype Sealer = Sealer(aead: Aead, key: Text, marshal: Envelope -> Text, unmarshal: Text -> Option<Envelope>) {
    ghost predicate Correct() {
      aead.Correct() && forall e :: unmarshal(marshal(e)) == Some(e)
    }
  }

  /** One item: its row, the rows of `item_versions` that carry its id, by
      revision, and every envelope it has had, revision by revision. No table
      holds the last. */
  datatype Item = Item(row: ItemRow, versions: map<nat, VersionRow>, log: seq<Envelope>)

  /** The CHECK constraint on ownership. */
  predicate Owned(row: ItemRow) {
    || (row.scope == PERSONAL && row.owner.Some? && row.owner.value != [] && row.creator.None?)
    || (row.scope == SHARED && row.creator.Some? && row.creator.value != [] && row.owner.None?)
  }

  /** The oldest archived revision of an item at revision r. */
  function Oldest(r: nat): nat { if r > MAX_HISTORY then r - MAX_HISTORY else 1 }

  /** The archive is the window just below the current revision. */
  ghost predicate Windowed(it: Item) {
    forall k: nat :: k in it.versions <==> Oldest(it.row.revision) <= k < it.row.revision
  }

  /** Every envelope the item ever had is of its type. */
  ghost predicate Typed(it: Item) {
    && |it.log| == it.row.revision >= 1
    && forall e :: e in it.log ==> e.version == SCHEMA_VERSION && e.content.kind == it.row.itemType
  }

  /** The current row and each archived row open, under their own id, scope,
      subject and revision, to what was written at that revision. */
  ghost predicate Opens(s: Sealer, id: Text, it: Item)
    requires Typed(it) && Windowed(it)
  {
    && ItemPlain(s.aead, s.key, id, it.row) == Some(s.marshal(it.log[it.row.revision - 1]))
    && forall k :: k in it.versions ==>
         VersionPlain(s.aead, s.key, id, it.row, k, it.versions[k]) == Some(s.marshal(it.log[k - 1]))
  }

  ghost predicate Sound(s: Sealer, id: Text, it: Item) {
    Owned(it.row) && Typed(it) && Windowed(it) && Opens(s, id, it)
  }

  // ----- pruning -----

  /** `ORDER BY revision DESC LIMIT n`, as a set. */
  function Newest(revisions: set<nat>, n: nat): set<nat> {
    set k | k in revisions && |Above(revisions, k)| < n
  }

  function Above(revisions: set<nat>, k: nat): set<nat> {
    set j | j in revisions && j > k
  }

  /** Deletes the versions that are not among the newest ten. */
  function Pruned(versions: map<nat, VersionRow>): map<nat, VersionRow> {
    var kept := Newest(versions.Keys, MAX_HISTORY);
    map k | k in versions && k in kept :: versions[k]
  }

  function Span(lo: nat, hi: nat): (r: set<nat>)
    requires lo <= hi
    ensures forall j :: j in r <==> lo <= j < hi
    ensures |r| == hi - lo
  {
    if lo == hi then {} else Span(lo, hi - 1) + {hi - 1}
  }

  /** The newest n of a stretch of revisions is its upper end. */
  lemma NewestOfSpan(lo: nat, hi: nat, n: nat)
    requires lo <= hi
    ensures forall k :: k in Newest(Span(lo, hi), n) <==> k in Span(lo, hi) && k + n >= hi
  {
    var all := Span(lo, hi);
    forall k | k in all ensures |Above(all, k)| == hi - 1 - k {
      assert Above(all, k) == Span(k + 1, hi);
    }
  }

  // ----- the effective write -----

  /** The row a write leaves current. */
  function Flipped(row: ItemRow, sealed: Columns, favorite: bool, at: nat): ItemRow {
    row.(sealed := sealed, revision := row.revision + 1, favorite := favorite, updatedAt := at)
  }

  function Archived(it: Item): map<nat, VersionRow> {
    it.versions[it.row.revision := VersionRow(it.row.sealed, it.row.updatedAt)]
  }

  function Written(it: Item, sealed: Columns, favorite: bool, at: nat, e: Envelope): Item {
    Item(Flipped(it.row, sealed, favorite, at), Pruned(Archived(it)), it.log + [e])
  }

  /** The columns hold e for this row at this revision. */
  ghost predicate Holds(s: Sealer, id: Text, row: ItemRow, revision: nat, sealed: Columns, e: Envelope) {
    && e.version == SCHEMA_VERSION && e.content.kind == row.itemType
    && sealed.version == PAYLOAD_VERSION
    && OpenColumns(s.aead, s.key, sealed, RowAad(id, row, PAYLOAD_VERSION, revision)) == Some(s.marshal(e))
  }

  lemma PrunedSpan(versions: map<nat, VersionRow>, lo: nat, hi: nat)
    requires lo <= hi && versions.Keys == Span(lo, hi)
    ensures forall k :: k in Pruned(versions) <==> lo <= k < hi && k + MAX_HISTORY >= hi
    ensures forall k :: k in Pruned(versions) ==> k in versions && Pruned(versions)[k] == versions[k]
  {
    NewestOfSpan(lo, hi, MAX_HISTORY);
    hide Newest;
  }

  /** Pruning after an archive leaves exactly the window of the new revision. */
  lemma PrunedWindow(it: Item)
    requires Windowed(it) && it.row.revision >= 1
    ensures var r := it.row.revision;
            && (forall k :: k in Pruned(Archived(it)) <==> Oldest(r + 1) <= k <= r)
            && (forall k :: k in Pruned(Archived(it)) ==> Pruned(Archived(it))[k] == Archived(it)[k])
  {
    hide Pruned;
    var r := it.row.revision;
    forall k ensures k in Archived(it) <==> k in Span(Oldest(r), r + 1) {
    }
    assert Archived(it).Keys == Span(Oldest(r), r + 1);
    PrunedSpan(Archived(it), Oldest(r), r + 1);
  }

  /** What a row opens to depends on its identity and its columns alone. */
  lemma SameIdentity(s: Sealer, id: Text, a: ItemRow, b: ItemRow)
    requires a.scope == b.scope && a.owner == b.owner && a.creator == b.creator
    ensures a.sealed == b.sealed && a.revision == b.revision ==> ItemPlain(s.aead, s.key, id, a) == ItemPlain(s.aead, s.key, id, b)
    ensures forall r, x :: VersionPlain(s.aead, s.key, id, a, r, x) == VersionPlain(s.aead, s.key, id, b, r, x)
    ensures VersionPlain(s.aead, s.key, id, a, a.revision, VersionRow(a.sealed, a.updatedAt)) == ItemPlain(s.aead, s.key, id, a)
  {
  }

  lemma HeldOpens(s: Sealer, id: Text, row: ItemRow, sealed: Columns, favorite: bool, at: nat, e: Envelope)
    requires Holds(s, id, row, row.revision + 1, sealed, e)
    ensures ItemPlain(s.aead, s.key, id, Flipped(row, sealed, favorite, at)) == Some(s.marshal(e))
  {
  }

  lemma WrittenSound(s: Sealer, id: Text, it: Item, sealed: Columns, favorite: bool, at: nat, e: Envelope)
    requires Sound(s, id, it) && Holds(s, id, it.row, it.row.revision + 1, sealed, e)
    ensures Sound(s, id, Written(it, sealed, favorite, at, e))
  {
    var w := Written(it, sealed, favorite, at, e);
    PrunedWindow(it);
    HeldOpens(s, id, it.row, sealed, favorite, at, e);
    SameIdentity(s, id, it.row, w.row);
    hide ItemPlain, VersionPlain, Pruned;
  }

  /** No write is lost: the superseded content is archived where it was, the
      new one is current at the next revision, and of the older ones only the
      eleventh back is gone. */
  lemma WriteLosesNothing(s: Sealer, id: Text, it: Item, sealed: Columns, favorite: bool, at: nat, e: Envelope)
    requires Sound(s, id, it) && Holds(s, id, it.row, it.row.revision + 1, sealed, e)
    ensures var r, w := it.row.revision, Written(it, sealed, favorite, at, e);
            && w.row.revision == r + 1
            && ItemPlain(s.aead, s.key, id, w.row) == Some(s.marshal(e))
            && r in w.versions && w.versions[r] == VersionRow(it.row.sealed, it.row.updatedAt)
            && VersionPlain(s.aead, s.key, id, w.row, r, w.versions[r]) == ItemPlain(s.aead, s.key, id, it.row)
            && (forall k :: k in it.versions && k != r - MAX_HISTORY ==> k in w.versions && w.versions[k] == it.versions[k])
            && (forall k :: k in w.versions && k != r ==> k in it.versions)
  {
    PrunedWindow(it);
    HeldOpens(s, id, it.row, sealed, favorite, at, e);
    SameIdentity(s, id, it.row, Flipped(it.row, sealed, favorite, at));
    hide ItemPlain, VersionPlain, Pruned;
  }

  /** A new item. */
  function Fresh(row: ItemRow, e: Envelope): Item { Item(row, map[], [e]) }

  lemma FreshSound(s: Sealer, id: Text, row: ItemRow, e: Envelope)
    requires row.revision == 1 && Owned(row) && Holds(s, id, row, 1, row.sealed, e)
    ensures Sound(s, id, Fresh(row, e))
  {
  }

  /** Moving into and out of the trash touches nothing but `deleted_at`. */
  function Marked(it: Item, deletedAt: Option<nat>): Item {
    it.(row := it.row.(deletedAt := deletedAt))
  }

  lemma MarkedSound(s: Sealer, id: Text, it: Item, deletedAt: Option<nat>)
    requires Sound(s, id, it)
    ensures Sound(s, id, Marked(it, deletedAt))
  {
    SameIdentity(s, id, it.row, Marked(it, deletedAt).row);
    hide ItemPlain, VersionPlain;
  }

  /** Columns sealed for a row position hold what was sealed. */
  lemma SealedHolds(s: Sealer, id: Text, row: ItemRow, nonce: Nonce, revision: nat, e: Envelope)
    requires s.Correct() && e.version == SCHEMA_VERSION && e.content.kind == row.itemType
    ensures var p := Encrypt(s.aead, s.key, nonce, s.marshal(e), RowAad(id, row, PAYLOAD_VERSION, revision));
            Holds(s, id, row, revision, Columns(p.version, p.nonce, p.ciphertext), e)
  {
    SealedForRow(s.aead, s.key, id, row, nonce, s.marshal(e), revision);
  }

  // ----- a run of writes to one item -----

  datatype Write = Write(sealed: Columns, favorite: bool, at: nat, envelope: Envelope)

  function After(it: Item, writes: seq<Write>): Item
    decreases |writes|
  {
    if writes == [] then it
    else var w := writes[0]; After(Written(it, w.sealed, w.favorite, w.at, w.envelope), writes[1..])
  }

  /** Each write holds its envelope for the revision it makes current. */
  ghost predicate AllHold(s: Sealer, id: Text, it: Item, writes: seq<Write>)
    decreases |writes|
  {
    writes != [] ==>
      var w := writes[0];
      && Holds(s, id, it.row, it.row.revision + 1, w.sealed, w.envelope)
      && AllHold(s, id, Written(it, w.sealed, w.favorite, w.at, w.envelope), writes[1..])
  }

  /** Whatever is written after it, the content of a revision can be restored
      for exactly the next ten writes. The row ends with the columns, the flag
      and the update time of the last of them, and is otherwise what it was. */
  lemma {:induction false} RestorableForTen(s: Sealer, id: Text, it: Item, writes: seq<Write>)
    requires Sound(s, id, it) && AllHold(s, id, it, writes)
    ensures var now := After(it, writes);
            && Sound(s, id, now)
            && now.row.revision == it.row.revision + |writes|
            && it.log <= now.log
            && (forall i :: 0 <= i < |writes| ==> now.log[|it.log| + i] == writes[i].envelope)
            && (writes != [] ==>
                  var last := writes[|writes| - 1];
                  now.row == it.row.(sealed := last.sealed, revision := it.row.revision + |writes|,
                                     favorite := last.favorite, updatedAt := last.at))
            && (it.row.revision in now.versions <==> 1 <= |writes| <= 10)
            && (it.row.revision in now.versions ==>
                  VersionPlain(s.aead, s.key, id, now.row, it.row.revision, now.versions[it.row.revision])
                  == Some(s.marshal(it.log[it.row.revision - 1])))
    decreases |writes|
  {
    hide Holds, ItemPlain, VersionPlain, Pruned;
    if writes != [] {
      var w := writes[0];
      WrittenSound(s, id, it, w.sealed, w.favorite, w.at, w.envelope);
      RestorableForTen(s, id, Written(it, w.sealed, w.favorite, w.at, w.envelope), writes[1..]);
    }
  }
}
