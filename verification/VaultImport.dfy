/** Importing an archive in one transaction: identities re-issued on conflict,
    references carried along (internal/vault/service.go, ImportAllWithHook). */
module VaultImport {
  import opened Bytes
  import opened Wrappers
  import opened Payload
  import opened Rows
  import opened VaultState
  import opened VaultService
  import R = VaultReference

  /** One archived item. Tags and payload are None when they fail validation;
      `keys` are the members of its payload that decode into the reference. */
  datatype ImportItem = ImportItem(
    originalId: Text,
    itemType: Text,
    scope: Text,
    tags: Option<seq<Text>>,
    favorite: bool,
    payload: Option<Content>,
    keys: seq<R.Member>)

  datatype ImportError =
    | NoActor | Invalid | DuplicateId | Reference | Refused | TooLarge | Unaudited
    | CommitUnknown

  /** How the commit call ends. */
  datatype Commit = Durable | Unknown(applied: bool)

  datatype Imported = Imported(imported: nat, remapped: nat)

  const ITEM_TYPES: set<Text> :=
    {Ascii("login"), Ascii("ssh_key"), CREDIT_CARD, IDENTITY, Ascii("secure_note"), Ascii("secret")}

  predicate ItemOk(it: ImportItem) {
    && it.itemType in ITEM_TYPES && (it.scope == PERSONAL || it.scope == SHARED)
    && it.tags.Some? && it.payload.Some? && it.payload.value.kind == it.itemType
    && it.payload.value.billing == R.Typed(it.keys) && (it.keys != [] ==> it.itemType == CREDIT_CARD)
  }

  /** `billingReference`: a reference that names something. */
  function Reference(it: ImportItem): Option<Text> {
    if it.payload.Some? && it.payload.value.billing.Some? && it.payload.value.billing.value != []
    then it.payload.value.billing else None
  }

  /** Item j of the archive carries this id. */
  predicate Carries(items: seq<ImportItem>, j: int, id: Text) {
    0 <= j < |items| && items[j].originalId == id && id != []
  }

  predicate TargetOk(source: ImportItem, target: ImportItem) {
    target.itemType == IDENTITY && (source.scope == SHARED ==> target.scope == SHARED)
  }

  ghost predicate ItemsOk(items: seq<ImportItem>) {
    forall i :: 0 <= i < |items| ==> ItemOk(items[i])
  }

  ghost predicate IdsDistinct(items: seq<ImportItem>) {
    forall i, j :: 0 <= i < j < |items| && items[i].originalId != [] ==> items[i].originalId != items[j].originalId
  }

  /** References inside the archive are to identities that every reader of the
      source can read. */
  ghost predicate ReferencesOk(items: seq<ImportItem>) {
    forall i, j :: 0 <= i < |items| && Reference(items[i]).Some? && Carries(items, j, Reference(items[i]).value)
      ==> TargetOk(items[i], items[j])
  }

  /** The id an item is stored under. */
  function FinalId(table: map<Text, Item>, it: ImportItem, spare: Text): Text {
    if it.originalId == [] || it.originalId in table then spare else it.originalId
  }

  /** Random ids: new, and different from each other and from the archive's. */
  ghost predicate Unused(table: map<Text, Item>, items: seq<ImportItem>, spare: seq<Text>) {
    && |spare| == |items|
    && (forall i :: 0 <= i < |spare| ==> spare[i] != [] && spare[i] !in table)
    && (forall i, j :: 0 <= i < j < |spare| ==> spare[i] != spare[j])
    && (forall i, j :: 0 <= i < |spare| && 0 <= j < |items| ==> spare[i] != items[j].originalId)
  }

  /** Where a reference leads: to the new id of the same target, or nowhere when
      the target stayed behind. */
  ghost function Leads(items: seq<ImportItem>, ids: seq<Text>): Text -> Option<Text>
    requires |ids| == |items|
  {
    (x: Text) => LeadsTo(items, ids, x)
  }

  ghost function LeadsTo(items: seq<ImportItem>, ids: seq<Text>, x: Text): Option<Text> {
    if exists j :: Carries(items, j, x) && j < |ids| then var j :| Carries(items, j, x) && j < |ids|; Some(ids[j]) else None
  }

  /** The reference an item is stored with. */
  ghost function Carried(items: seq<ImportItem>, ids: seq<Text>, it: ImportItem): Option<Text>
    requires |ids| == |items|
  {
    R.Stored(it.keys, Leads(items, ids))
  }

  /** The card's target moved to a new id, and the card with it. */
  ghost predicate Moved(items: seq<ImportItem>, ids: seq<Text>, i: nat)
    requires |ids| == |items|
  {
    && i < |items| && R.Usable(items[i].keys).Some?
    && exists j :: Carries(items, j, R.Usable(items[i].keys).value) && ids[j] != items[j].originalId
  }

  ghost function MovedCards(items: seq<ImportItem>, ids: seq<Text>, n: nat): set<nat>
    requires |ids| == |items|
  {
    set i: nat | i < n && Moved(items, ids, i)
  }

  function EnvelopeOf(it: ImportItem, billing: Option<Text>): Envelope
    requires it.payload.Some? && it.tags.Some?
  {
    Envelope(SCHEMA_VERSION, it.tags.value, it.payload.value.(billing := billing))
  }

  ghost predicate Stored(table: map<Text, Item>, actor: Text, id: Text, it: ImportItem, billing: Option<Text>, at: nat)
    requires ItemOk(it)
  {
    && id in table
    && table[id] == Fresh(NewRow(actor, it.scope, it.itemType, it.favorite, table[id].row.sealed, at), EnvelopeOf(it, billing))
  }

  ghost predicate Fits(s: Sealer, items: seq<ImportItem>, ids: seq<Text>)
    requires |ids| == |items| && ItemsOk(items)
  {
    forall i :: 0 <= i < |items| ==> |s.marshal(EnvelopeOf(items[i], Carried(items, ids, items[i])))| <= MAX_PAYLOAD_BYTES
  }

  /** The vault holds what it held and the archive, item for item. */
  ghost predicate ImportOf(was: map<Text, Item>, now: map<Text, Item>, actor: Text, items: seq<ImportItem>, ids: seq<Text>, at: nat)
    requires ItemsOk(items)
  {
    && |ids| == |items|
    && (forall i, j :: 0 <= i < j < |ids| ==> ids[i] != ids[j])
    && (forall i :: 0 <= i < |ids| ==> ids[i] !in was)
    && (forall id :: id in now <==> id in was || id in ids)
    && (forall id :: id in was ==> now[id] == was[id])
    && (forall i :: 0 <= i < |items| ==> Stored(now, actor, ids[i], items[i], Carried(items, ids, items[i]), at))
  }

  /** Every item by itself. The map it builds finds the archive's items by id. */
  method CheckItems(items: seq<ImportItem>) returns (r: Result<map<Text, nat>, ImportError>)
    ensures r.Ok? <==> ItemsOk(items) && IdsDistinct(items)
    ensures r.Err? ==> r.error == Invalid || r.error == DuplicateId
    ensures r.Ok? ==> forall id :: id in r.value <==> exists j :: Carries(items, j, id)
    ensures r.Ok? ==> forall id :: id in r.value ==> Carries(items, r.value[id], id)
  {
    var archive: map<Text, nat> := map[];
    for i := 0 to |items|
      invariant forall k :: 0 <= k < i ==> ItemOk(items[k])
      invariant forall j, k :: 0 <= j < k < i && items[j].originalId != [] ==> items[j].originalId != items[k].originalId
      invariant forall id :: id in archive ==> Carries(items, archive[id], id) && archive[id] < i
      invariant forall j :: 0 <= j < i && items[j].originalId != [] ==> items[j].originalId in archive
    {
      if !ItemOk(items[i]) {
        return Err(Invalid);
      }
      if items[i].originalId != [] {
        if items[i].originalId in archive {
          return Err(DuplicateId);
        }
        archive := archive[items[i].originalId := i];
      }
    }
    r := Ok(archive);
  }

  /** The reference graph. */
  method CheckReferences(items: seq<ImportItem>, archive: map<Text, nat>) returns (ok: bool)
    requires IdsDistinct(items)
    requires forall id :: id in archive <==> exists j :: Carries(items, j, id)
    requires forall id :: id in archive ==> Carries(items, archive[id], id)
    ensures ok <==> ReferencesOk(items)
  {
    for i := 0 to |items|
      invariant forall h, j :: 0 <= h < i && Reference(items[h]).Some? && Carries(items, j, Reference(items[h]).value)
                  ==> TargetOk(items[h], items[j])
    {
      var reference := Reference(items[i]);
      if reference.Some? && reference.value in archive {
        if !TargetOk(items[i], items[archive[reference.value]]) {
          return false;
        }
      }
    }
    return true;
  }

  /** Pass 1: the original id when it is free, a fresh one otherwise. */
  method AssignIds(table: map<Text, Item>, items: seq<ImportItem>, spare: seq<Text>)
    returns (ids: seq<Text>, idMap: map<Text, Text>)
    requires Unused(table, items, spare) && IdsDistinct(items)
    ensures |ids| == |items| && forall i :: 0 <= i < |items| ==> ids[i] == FinalId(table, items[i], spare[i])
    ensures forall i :: 0 <= i < |items| ==>
              (ids[i] == items[i].originalId <==> items[i].originalId != [] && items[i].originalId !in table)
    ensures forall i :: 0 <= i < |ids| ==> ids[i] != [] && ids[i] !in table
    ensures forall i, j :: 0 <= i < j < |ids| ==> ids[i] != ids[j]
    ensures forall id :: id in idMap <==> exists j :: Carries(items, j, id)
    ensures forall id, j :: Carries(items, j, id) ==> id in idMap && idMap[id] == ids[j]
  {
    ids, idMap := [], map[];
    for i := 0 to |items|
      invariant |ids| == i && forall k :: 0 <= k < i ==> ids[k] == FinalId(table, items[k], spare[k])
      invariant forall id :: id in idMap ==> exists j :: Carries(items, j, id)
      invariant forall id, j :: Carries(items, j, id) && j < i ==> id in idMap && idMap[id] == ids[j]
    {
      var original := items[i].originalId;
      var final := original;
      if original in table || original == [] {
        final := spare[i];
      }
      ids := ids + [final];
      if original != [] {
        assert Carries(items, i, original);
        idMap := idMap[original := final];
      }
    }
  }

  /** Pass 2: references into the archive follow their target, others are
      cleared, and a card counts when its target's id changed. */
  method Rewrite(items: seq<ImportItem>, ids: seq<Text>, idMap: map<Text, Text>)
    returns (rewritten: seq<ImportItem>, remapped: nat)
    requires ItemsOk(items) && |ids| == |items|
    requires forall id :: id in idMap <==> exists j :: Carries(items, j, id)
    requires forall id, j :: Carries(items, j, id) ==> id in idMap && idMap[id] == ids[j]
    ensures |rewritten| == |items|
    ensures forall i :: 0 <= i < |items| ==>
              rewritten[i] == items[i].(payload := Some(items[i].payload.value.(billing := Carried(items, ids, items[i]))))
    ensures remapped == |MovedCards(items, ids, |items|)|
  {
    hide Carried, Moved, MovedCards;
    rewritten, remapped := items, 0;
    CountMoved(items, ids, 0);
    for i := 0 to |items|
      invariant |rewritten| == |items| && rewritten[i..] == items[i..]
      invariant forall k :: 0 <= k < i ==>
                  rewritten[k] == items[k].(payload := Some(items[k].payload.value.(billing := Carried(items, ids, items[k]))))
      invariant remapped == |MovedCards(items, ids, i)|
    {
      assert rewritten[i..][0] == items[i];
      CountMoved(items, ids, i);
      var it, moved := RewriteOne(items, ids, idMap, i);
      if moved {
        remapped := remapped + 1;
      }
      rewritten := rewritten[i := it];
      assert rewritten[i + 1..] == items[i + 1..];
    }
  }

  lemma CountMoved(items: seq<ImportItem>, ids: seq<Text>, i: nat)
    requires |ids| == |items|
    ensures |MovedCards(items, ids, 0)| == 0
    ensures |MovedCards(items, ids, i + 1)| == |MovedCards(items, ids, i)| + (if Moved(items, ids, i) then 1 else 0)
  {
    hide Moved;
    assert MovedCards(items, ids, 0) == {};
    assert MovedCards(items, ids, i + 1) == MovedCards(items, ids, i) + (if Moved(items, ids, i) then {i} else {});
  }

  method RewriteOne(items: seq<ImportItem>, ghost ids: seq<Text>, idMap: map<Text, Text>, i: nat)
    returns (it: ImportItem, moved: bool)
    requires i < |items| == |ids| && ItemOk(items[i])
    requires forall id :: id in idMap <==> exists j :: Carries(items, j, id)
    requires forall id, j :: Carries(items, j, id) ==> id in idMap && idMap[id] == ids[j]
    ensures it == items[i].(payload := Some(items[i].payload.value.(billing := Carried(items, ids, items[i]))))
    ensures moved <==> Moved(items, ids, i)
  {
    it, moved := items[i], false;
    if it.itemType != CREDIT_CARD || R.Usable(it.keys).None? {
      return;
    }
    R.UsableNonempty(it.keys);
    var target := R.Usable(it.keys).value;
    LeadsIs(items, ids, idMap, target);
    var value := Some(target);
    if target in idMap && idMap[target] != target {
      value := Some(idMap[target]);
      moved := true;
    } else if target !in idMap {
      value := None;
    }
    it := it.(payload := Some(it.payload.value.(billing := R.Rewritten(it.keys, value))));
  }

  lemma LeadsIs(items: seq<ImportItem>, ids: seq<Text>, idMap: map<Text, Text>, target: Text)
    requires |ids| == |items|
    requires forall id :: id in idMap <==> exists j :: Carries(items, j, id)
    requires forall id, j :: Carries(items, j, id) ==> id in idMap && idMap[id] == ids[j]
    ensures Leads(items, ids)(target) == (if target in idMap then Some(idMap[target]) else None)
    ensures (exists j :: Carries(items, j, target) && ids[j] != items[j].originalId) <==> target in idMap && idMap[target] != target
  {
  }

  /** Pass 3, one row: seal under the importer's ownership and insert. */
  method InsertOne(v: VaultTables, actor: Text, id: Text, it: ImportItem, nonce: Nonce, at: nat,
                   ghost original: ImportItem, ghost billing: Option<Text>) returns (ok: bool)
    requires v.Valid() && id !in v.table && ItemOk(original) && actor != []
    requires it == original.(payload := Some(original.payload.value.(billing := billing)))
    modifies v`table
    ensures v.Valid()
    ensures ok <==> |v.s.marshal(EnvelopeOf(original, billing))| <= MAX_PAYLOAD_BYTES
    ensures !ok ==> v.table == old(v.table)
    ensures ok ==> && Stored(v.table, actor, id, original, billing, at)
                   && v.table == old(v.table)[id := v.table[id]]
  {
    var e := Envelope(SCHEMA_VERSION, it.tags.value, it.payload.value);
    assert e == EnvelopeOf(original, billing);
    if |v.s.marshal(e)| > MAX_PAYLOAD_BYTES {
      return false;
    }
    var blank := NewRow(actor, it.scope, it.itemType, it.favorite, Columns(0, [], []), at);
    var sealed := v.Seal(id, blank, 1, nonce, e);
    var row := NewRow(actor, it.scope, it.itemType, it.favorite, sealed, at);
    HoldsElsewhere(v.s, id, blank, row, 1, sealed, e);
    FreshSound(v.s, id, row, e);
    hide Opens, Holds;
    v.table := v.table[id := Fresh(row, e)];
    return true;
  }

  /** The whole import. `hookOk` is what the transaction-local session check
      says; `spare` and `nonces` are the random values. */
  method ImportAll(v: VaultTables, actor: Text, items: seq<ImportItem>, spare: seq<Text>, nonces: seq<Nonce>,
                   at: nat, hookOk: bool, audited: bool, commit: Commit)
    returns (r: Result<Imported, ImportError>, ids: seq<Text>)
    requires v.Valid() && Unused(v.table, items, spare) && |nonces| == |items|
    modifies v`table
    ensures v.Valid()
    ensures r.Ok? ==> ItemsOk(items) && IdsDistinct(items) && ReferencesOk(items) && actor != [] && hookOk
    ensures r.Ok? ==> ImportOf(old(v.table), v.table, actor, items, ids, at)
    ensures r.Ok? ==> forall i :: 0 <= i < |items| ==> ids[i] == FinalId(old(v.table), items[i], spare[i])
    ensures r.Ok? ==> forall i :: 0 <= i < |items| ==>
              (ids[i] == items[i].originalId <==> items[i].originalId != [] && items[i].originalId !in old(v.table))
    ensures r.Ok? ==> r.value == Imported(|items|, |MovedCards(items, ids, |items|)|)
    ensures r.Err? && r.error != CommitUnknown ==> v.table == old(v.table)
    ensures r == Err(CommitUnknown) ==>
              commit.Unknown? && hookOk && ItemsOk(items)
              && if commit.applied then ImportOf(old(v.table), v.table, actor, items, ids, at) else v.table == old(v.table)
    ensures (&& actor != [] && ItemsOk(items) && IdsDistinct(items) && ReferencesOk(items) && hookOk && audited
             && |ids| == |items| && Fits(v.s, items, ids)) ==> r.Ok? || r == Err(CommitUnknown)
  {
    hide Carried, MovedCards, Moved, Sound, IdsDistinct, ReferencesOk, TargetOk;
    ids := [];
    if actor == [] {
      return Err(NoActor), ids;
    }
    var checked := CheckItems(items);
    if checked.Err? {
      return Err(checked.error), ids;
    }
    var graphOk := CheckReferences(items, checked.value);
    if !graphOk {
      return Err(ImportError.Reference), ids;
    }
    ghost var was := v.table;
    var saved := v.table;
    var idMap;
    ids, idMap := AssignIds(v.table, items, spare);
    var rewritten, remapped := Rewrite(items, ids, idMap);
    if !hookOk {
      return Err(Refused), ids;
    }
    var inserted := InsertAll(v, actor, items, rewritten, ids, nonces, at);
    if !inserted {
      v.table := saved;
      return Err(TooLarge), ids;
    }
    if !audited {
      v.table := saved;
      return Err(Unaudited), ids;
    }
    if commit.Unknown? {
      if !commit.applied {
        v.table := saved;
      }
      return Err(CommitUnknown), ids;
    }
    return Ok(Imported(|items|, remapped)), ids;
  }

  /** Pass 3. */
  method InsertAll(v: VaultTables, actor: Text, ghost items: seq<ImportItem>, rewritten: seq<ImportItem>, ids: seq<Text>,
                   nonces: seq<Nonce>, at: nat) returns (ok: bool)
    requires v.Valid() && actor != [] && ItemsOk(items)
    requires |items| == |rewritten| == |ids| == |nonces|
    requires forall i, j :: 0 <= i < j < |ids| ==> ids[i] != ids[j]
    requires forall i :: 0 <= i < |ids| ==> ids[i] !in v.table
    requires forall i :: 0 <= i < |items| ==>
               rewritten[i] == items[i].(payload := Some(items[i].payload.value.(billing := Carried(items, ids, items[i]))))
    modifies v`table
    ensures v.Valid()
    ensures ok <==> Fits(v.s, items, ids)
    ensures ok ==> ImportOf(old(v.table), v.table, actor, items, ids, at)
  {
    assert Progress(v.s, v.table, v.table, actor, items, ids, at, 0);
    hide Progress, Carried, VaultTables.Valid, EnvelopeOf, Stored;
    ghost var was := v.table;
    for i := 0 to |rewritten|
      invariant v.Valid() && Progress(v.s, was, v.table, actor, items, ids, at, i)
    {
      ghost var before := v.table;
      NotYet(v.s, was, v.table, actor, items, ids, at, i);
      var done := InsertOne(v, actor, ids[i], rewritten[i], nonces[i], at, items[i], Carried(items, ids, items[i]));
      if !done {
        return false;
      }
      OneFurther(v.s, was, before, v.table, actor, items, ids, at, i);
    }
    Complete(v.s, was, v.table, actor, items, ids, at);
    return true;
  }

  /** The first n items are stored, and fit; nothing else has changed. */
  ghost predicate Progress(s: Sealer, was: map<Text, Item>, now: map<Text, Item>, actor: Text, items: seq<ImportItem>,
                           ids: seq<Text>, at: nat, n: nat)
    requires n <= |items| == |ids| && ItemsOk(items)
  {
    && (forall id :: id in now <==> id in was || id in ids[..n])
    && (forall id :: id in was ==> now[id] == was[id])
    && (forall k :: 0 <= k < n ==> Stored(now, actor, ids[k], items[k], Carried(items, ids, items[k]), at))
    && (forall k :: 0 <= k < n ==> |s.marshal(EnvelopeOf(items[k], Carried(items, ids, items[k])))| <= MAX_PAYLOAD_BYTES)
  }

  lemma NotYet(s: Sealer, was: map<Text, Item>, now: map<Text, Item>, actor: Text, items: seq<ImportItem>,
               ids: seq<Text>, at: nat, i: nat)
    requires i < |items| == |ids| && ItemsOk(items) && Progress(s, was, now, actor, items, ids, at, i)
    requires forall j, k :: 0 <= j < k < |ids| ==> ids[j] != ids[k]
    requires ids[i] !in was
    ensures ids[i] !in now
  {
    hide Stored, Carried, EnvelopeOf;
  }

  lemma OneFurther(s: Sealer, was: map<Text, Item>, before: map<Text, Item>, now: map<Text, Item>, actor: Text,
                   items: seq<ImportItem>, ids: seq<Text>, at: nat, i: nat)
    requires i < |items| == |ids| && ItemsOk(items) && Progress(s, was, before, actor, items, ids, at, i)
    requires ids[i] in now && ids[i] !in before && now == before[ids[i] := now[ids[i]]]
    requires Stored(now, actor, ids[i], items[i], Carried(items, ids, items[i]), at)
    requires |s.marshal(EnvelopeOf(items[i], Carried(items, ids, items[i])))| <= MAX_PAYLOAD_BYTES
    ensures Progress(s, was, now, actor, items, ids, at, i + 1)
  {
    hide Stored, Carried, EnvelopeOf;
    assert ids[..i + 1] == ids[..i] + [ids[i]];
    forall k | 0 <= k < i ensures Stored(now, actor, ids[k], items[k], Carried(items, ids, items[k]), at) {
      assert ids[k] in ids[..i];
      StoredStays(before, now, actor, ids[k], ids[i], items[k], Carried(items, ids, items[k]), at);
    }
  }

  lemma Complete(s: Sealer, was: map<Text, Item>, now: map<Text, Item>, actor: Text, items: seq<ImportItem>,
                 ids: seq<Text>, at: nat)
    requires |items| == |ids| && ItemsOk(items) && Progress(s, was, now, actor, items, ids, at, |items|)
    requires forall j, k :: 0 <= j < k < |ids| ==> ids[j] != ids[k]
    requires forall i :: 0 <= i < |ids| ==> ids[i] !in was
    ensures ImportOf(was, now, actor, items, ids, at) && Fits(s, items, ids)
  {
    hide Stored, Carried, EnvelopeOf;
    assert ids[..|items|] == ids;
  }

  lemma StoredStays(was: map<Text, Item>, now: map<Text, Item>, actor: Text, id: Text, other: Text, it: ImportItem,
                    billing: Option<Text>, at: nat)
    requires ItemOk(it) && Stored(was, actor, id, it, billing, at) && id != other
    requires other in now && now == was[other := now[other]]
    ensures Stored(now, actor, id, it, billing, at)
  {
    hide EnvelopeOf, Fresh, NewRow;
  }

  /** What creation demands of references, an import delivers to every card
      whose keys agree and whose reference is not an empty string: once imported
      it points nowhere or at a readable identity. */
  lemma ImportedReferencesResolve(was: map<Text, Item>, now: map<Text, Item>, actor: Text, items: seq<ImportItem>,
                                  ids: seq<Text>, at: nat, i: nat)
    requires ItemsOk(items) && IdsDistinct(items) && ReferencesOk(items) && actor != []
    requires ImportOf(was, now, actor, items, ids, at) && i < |items|
    requires R.KeysAgree(items[i].keys) && items[i].payload.value.billing != Some([])
    ensures ids[i] in now && now[ids[i]].log != []
            && ReferenceAllowed(now, actor, items[i].scope, Latest(now[ids[i]]).content)
  {
    var it := items[i];
    assert ItemOk(it);
    assert Stored(now, actor, ids[i], it, Carried(items, ids, it), at);
    R.FollowsIff(it.keys);
    assert Carried(items, ids, it) == R.Wanted(it.keys, Leads(items, ids));
    if Reference(it).Some? && exists j :: Carries(items, j, Reference(it).value) {
      var j :| Carries(items, j, Reference(it).value) && Carried(items, ids, it) == Some(ids[j]);
      assert ItemOk(items[j]) && TargetOk(it, items[j]);
      assert Stored(now, actor, ids[j], items[j], Carried(items, ids, items[j]), at);
    }
  }

  /** Column by column: each archived item is a new item of the importer's, with
      its type, vault, flag, tags and fields; everything that was there still
      is. */
  lemma ImportedRows(was: map<Text, Item>, now: map<Text, Item>, actor: Text, items: seq<ImportItem>, ids: seq<Text>, at: nat, i: nat)
    requires ItemsOk(items) && ImportOf(was, now, actor, items, ids, at) && i < |items|
    ensures ids[i] !in was && ids[i] in now && was == map id | id in now && id !in ids :: now[id]
    ensures var it, item := now[ids[i]], items[i];
            && it.versions == map[] && |it.log| == 1 && it.log[0].version == 1
            && it.log[0].tags == item.tags.value
            && it.log[0].content.kind == item.itemType && it.log[0].content.fields == item.payload.value.fields
            && it.row == ItemRow(item.scope, it.row.owner, it.row.creator, item.itemType, item.favorite, it.row.sealed, 1, at, at, None)
            && (item.scope == PERSONAL ==> it.row.owner == Some(actor) && it.row.creator.None?)
            && (item.scope == SHARED ==> it.row.owner.None? && it.row.creator == Some(actor))
  {
    assert ItemOk(items[i]) && PERSONAL[0] != SHARED[0];
    assert Stored(now, actor, ids[i], items[i], Carried(items, ids, items[i]), at);
    hide Carried;
  }

  /** A payload without a usable reference under the exact key keeps whatever it
      has under others. */
  lemma MisspeltReferenceStays(was: map<Text, Item>, now: map<Text, Item>, actor: Text, items: seq<ImportItem>,
                               ids: seq<Text>, at: nat, i: nat)
    requires ItemsOk(items) && ImportOf(was, now, actor, items, ids, at) && i < |items|
    requires R.Usable(items[i].keys).None?
    ensures ids[i] in now && now[ids[i]].log != []
            && Latest(now[ids[i]]).content.billing == items[i].payload.value.billing
  {
    assert ItemOk(items[i]);
    assert Stored(now, actor, ids[i], items[i], Carried(items, ids, items[i]), at);
  }
}
