/** Browsing: batched keyset scans over the vault, a bounded heap for title
    order, and the pages a client follows (internal/vault/browse.go,
    internal/httpapi/items_browse.go). */
module Browse {
  import opened Bytes
  import opened Wrappers
  import opened Order
  import opened BrowseOrder
  import opened BrowseHeap

  const BROWSE_BATCH_SIZE: nat := 64
  const DEFAULT_PAGE_SIZE: int := 50
  const MAX_PAGE_SIZE: int := 100

  datatype BrowseInput = BrowseInput(
    query: Text,
    scope: string,
    itemType: string,
    tag: Text,
    favorite: Option<bool>,
    sort: SortOrder)

  datatype BrowseError = Forbidden | InvalidScope | InvalidItemType | UnknownSort | InvalidLimit | Unreadable

  const SCOPES: set<string> := {"personal", "shared"}
  const ITEM_TYPES: set<string> := {"login", "ssh_key", "credit_card", "identity", "secure_note", "secret"}

  predicate Contains(s: Text, sub: Text) {
    exists i :: 0 <= i <= |s| && sub <= s[i..]
  }

  /** The authorization and filter predicate of `browseWhere`. */
  function Admits(actor: Text, input: BrowseInput): Row -> bool {
    (r: Row) =>
      && !r.deleted
      && ((r.scope == "personal" && r.owner == Some(actor)) || r.scope == "shared")
      && (input.scope == "" || r.scope == input.scope)
      && (input.itemType == "" || r.itemType == input.itemType)
      && (input.favorite.None? || r.favorite == input.favorite.value)
  }

  /** `matchQuery` on a decrypted row. */
  function Matches(input: BrowseInput): Row -> bool {
    (r: Row) =>
      && r.content.Some?
      && (input.tag == [] || input.tag in r.content.value.tags)
      && (input.query == [] || Contains(r.content.value.searchable, input.query))
  }

  /** Strictly after the cursor; an empty id is no cursor. */
  function AfterCursor(after: Pos, o: SortOrder): Row -> bool {
    (r: Row) => after.id == [] || BrowseLess(after, PosOf(r, o), o)
  }

  function Both(p: Row -> bool, q: Row -> bool): Row -> bool {
    (r: Row) => p(r) && q(r)
  }

  function CheckInput(actor: Option<Text>, input: BrowseInput): Option<BrowseError> {
    if actor.None? then Some(Forbidden)
    else if input.scope != "" && input.scope !in SCOPES then Some(InvalidScope)
    else if input.itemType != "" && input.itemType !in ITEM_TYPES then Some(InvalidItemType)
    else if input.sort == UnknownOrder then Some(UnknownSort)
    else None
  }

  /** What browsing is for: all authorised matches in the requested order. */
  function Listing(table: seq<Row>, actor: Text, input: BrowseInput): seq<Row> {
    Sort(Filter(Both(Admits(actor, input), Matches(input)), table), input.sort)
  }

  /** One page of it: the first `limit` rows strictly after the cursor. */
  function Page(table: seq<Row>, actor: Text, input: BrowseInput, after: Pos, limit: nat): seq<Row> {
    Cut(Filter(AfterCursor(after, input.sort), Listing(table, actor, input)), limit)
  }

  function ScanOrder(o: SortOrder): SortOrder {
    if ByTitle(o) then UpdatedDesc else o
  }

  /** The rows a scan from the cursor goes through, in scan order. */
  function ScanRows(table: seq<Row>, where: Row -> bool, o: SortOrder, after: Pos): seq<Row> {
    Filter(AfterCursor(after, o), Sort(Filter(where, table), o))
  }

  /** A row that does not authenticate stands in the way of the page. */
  ghost predicate Blocked(table: seq<Row>, actor: Text, input: BrowseInput, after: Pos, limit: nat) {
    if ByTitle(input.sort) then
      exists r :: r in Filter(Admits(actor, input), table) && r.content.None?
    else
      var rows := ScanRows(table, Admits(actor, input), input.sort, after);
      exists k :: 0 <= k < |rows| && rows[k].content.None? && |Filter(Matches(input), rows[..k])| < limit
  }

  ghost predicate ValidTable(table: seq<Row>) {
    DistinctIds(table) && forall r :: r in table ==> r.id != []
  }

  // ----- the SQL page -----

  function SqlInsert(x: Row, xs: seq<Row>, o: SortOrder): seq<Row> {
    if xs == [] then [x]
    else if SqlBefore(x, xs[0], o) then [x] + xs
    else [xs[0]] + SqlInsert(x, xs[1..], o)
  }

  function SqlSort(xs: seq<Row>, o: SortOrder): seq<Row> {
    if xs == [] then [] else SqlInsert(xs[|xs| - 1], SqlSort(xs[..|xs| - 1], o), o)
  }

  function SqlCursor(o: SortOrder, afterKey: Text, afterId: Text): Row -> bool {
    (r: Row) => afterId == [] || SqlAfter(r, o, afterKey, afterId)
  }

  /** `listBrowseRows`: SELECT … WHERE … ORDER BY column, id LIMIT. */
  function ListBrowseRows(table: seq<Row>, where: Row -> bool, o: SortOrder, afterKey: Text, afterId: Text, limit: nat)
    : seq<Row>
  {
    Cut(SqlSort(Filter((r: Row) => where(r) && SqlCursor(o, afterKey, afterId)(r), table), o), limit)
  }

  lemma {:induction false} SqlInsertAgrees(x: Row, xs: seq<Row>, o: SortOrder)
    requires !ByTitle(o)
    ensures SqlInsert(x, xs, o) == Insert(x, xs, o)
  {
    if xs != [] {
      SqlAgrees(x, xs[0], o, PosOf(x, o));
      SqlInsertAgrees(x, xs[1..], o);
    }
  }

  lemma {:induction false} SqlSortAgrees(xs: seq<Row>, o: SortOrder)
    requires !ByTitle(o)
    ensures SqlSort(xs, o) == Sort(xs, o)
  {
    if xs != [] {
      SqlSortAgrees(xs[..|xs| - 1], o);
      SqlInsertAgrees(xs[|xs| - 1], Sort(xs[..|xs| - 1], o), o);
    }
  }

  lemma {:induction false} FilterExtensional(p: Row -> bool, q: Row -> bool, xs: seq<Row>)
    requires forall r :: r in xs ==> p(r) == q(r)
    ensures Filter(p, xs) == Filter(q, xs)
  {
    if xs != [] {
      FilterExtensional(p, q, xs[1..]);
    }
  }

  lemma {:induction false} FilterTwice(p: Row -> bool, q: Row -> bool, xs: seq<Row>)
    ensures Filter(q, Filter(p, xs)) == Filter(Both(p, q), xs)
  {
    if xs != [] {
      FilterTwice(p, q, xs[1..]);
    }
  }

  /** The SQL page is the next `limit` rows of the scan. */
  lemma SqlPage(table: seq<Row>, where: Row -> bool, o: SortOrder, after: Pos, limit: nat)
    requires ValidTable(table) && !ByTitle(o)
    ensures ListBrowseRows(table, where, o, after.key, after.id, limit) == Cut(ScanRows(table, where, o, after), limit)
  {
    var sql := (r: Row) => where(r) && SqlCursor(o, after.key, after.id)(r);
    forall r | r in table ensures sql(r) == Both(where, AfterCursor(after, o))(r) {
      SqlAgrees(r, r, o, after);
    }
    FilterExtensional(sql, Both(where, AfterCursor(after, o)), table);
    SqlSortAgrees(Filter(sql, table), o);
    FilterTwice(where, AfterCursor(after, o), table);
    FilterDistinct(where, table);
    FilterOfSort(AfterCursor(after, o), Filter(where, table), o);
  }

  // ----- the cursor moves through the scan -----

  /** Moving the cursor to a row of the scan leaves exactly the rows behind it. */
  lemma CursorAdvances(table: seq<Row>, where: Row -> bool, o: SortOrder, after: Pos, k: nat)
    requires ValidTable(table)
    requires k < |ScanRows(table, where, o, after)|
    ensures var rows := ScanRows(table, where, o, after);
            && rows[k].id != []
            && ScanRows(table, where, o, PosOf(rows[k], o)) == rows[k + 1..]
  {
    var all := Sort(Filter(where, table), o);
    var rows := ScanRows(table, where, o, after);
    FilterDistinct(where, table);
    SortSorts(Filter(where, table), o);
    FilterSorted(AfterCursor(after, o), all, o);
    var here := PosOf(rows[k], o);
    FilterMembers(AfterCursor(after, o), all, rows[k]);
    SortPermutes(Filter(where, table), o);
    SameMembers(all, Filter(where, table), rows[k]);
    FilterMembers(where, table, rows[k]);
    forall r | r in all ensures AfterCursor(here, o)(r) == Both(AfterCursor(after, o), AfterCursor(here, o))(r) {
      if AfterCursor(here, o)(r) && after.id != [] {
        LessTransitive(after, here, PosOf(r, o), o);
      }
    }
    FilterExtensional(AfterCursor(here, o), Both(AfterCursor(after, o), AfterCursor(here, o)), all);
    FilterTwice(AfterCursor(after, o), AfterCursor(here, o), all);
    SuffixAfter(rows, o, k, AfterCursor(here, o));
  }

  // ----- what the scan has collected -----

  /** Title order keeps the best matches of the scanned rows in the heap;
      timestamp order keeps all of them, in scan order. */
  ghost predicate Collected(items: seq<Row>, input: BrowseInput, after: Pos, limit: nat, scanned: seq<Row>) {
    if ByTitle(input.sort) then
      multiset(items) == multiset(Best(Filter(Both(Matches(input), AfterCursor(after, input.sort)), scanned), limit, input.sort))
    else
      items == Filter(Matches(input), scanned) && |items| <= limit
  }

  lemma FilterSnoc(p: Row -> bool, xs: seq<Row>, x: Row)
    ensures Filter(p, xs + [x]) == if p(x) then Filter(p, xs) + [x] else Filter(p, xs)
  {
    FilterAppend(p, xs, [x]);
    assert Filter(p, [x]) == if p(x) then [x] else [];
  }

  /** One decrypted row of a scan. */
  method TakeRow(candidates: BrowseHeap, row: Row, input: BrowseInput, after: Pos, limit: nat, ghost scanned: seq<Row>)
    requires limit > 0 && candidates.order == input.sort
    requires row.content.Some? && DistinctIds(scanned + [row])
    requires Collected(candidates.items, input, after, limit, scanned)
    requires ByTitle(input.sort) ==> candidates.IsHeap()
    requires !ByTitle(input.sort) ==> |candidates.items| < limit
    modifies candidates`items
    ensures Collected(candidates.items, input, after, limit, scanned + [row])
    ensures ByTitle(input.sort) ==> candidates.IsHeap()
  {
    hide Before, BrowseLess, Sort;
    ghost var wanted := Both(Matches(input), AfterCursor(after, input.sort));
    FilterSnoc(wanted, scanned, row);
    FilterSnoc(Matches(input), scanned, row);
    if !Matches(input)(row) {
      return;
    }
    if ByTitle(input.sort) {
      if after.id != [] && !BrowseLess(after, PosOf(row, input.sort), input.sort) {
        return;
      }
      FilterDistinct(wanted, scanned + [row]);
      candidates.Consider(row, limit, Filter(wanted, scanned));
    } else {
      candidates.items := candidates.items + [row];
    }
  }

  lemma PermutationDistinct(xs: seq<Row>, ys: seq<Row>)
    requires multiset(xs) == multiset(ys) && DistinctIds(ys)
    ensures DistinctIds(xs)
  {
    forall i, j | 0 <= i < j < |xs| ensures xs[i].id != xs[j].id {
      SameMembers(xs, ys, xs[i]);
      SameMembers(xs, ys, xs[j]);
      var a :| 0 <= a < |ys| && ys[a] == xs[i];
      var b :| 0 <= b < |ys| && ys[b] == xs[j];
      if a == b {
        assert xs == xs[..i] + [xs[i]] + xs[i + 1..j] + [xs[j]] + xs[j + 1..];
        assert multiset(ys)[ys[a]] >= 2;
        DistinctCount(ys, a);
      }
    }
  }

  lemma DistinctCount(ys: seq<Row>, a: nat)
    requires DistinctIds(ys) && a < |ys|
    ensures multiset(ys)[ys[a]] == 1
  {
    assert ys == ys[..a] + [ys[a]] + ys[a + 1..];
    assert ys[a] !in ys[..a] && ys[a] !in ys[a + 1..];
    assert multiset(ys) == multiset(ys[..a]) + multiset{ys[a]} + multiset(ys[a + 1..]);
  }

  /** The matches a title scan meets, sorted, are the listing after the cursor. */
  lemma ScannedMatchesAreListed(table: seq<Row>, actor: Text, input: BrowseInput, after: Pos)
    requires ValidTable(table)
    ensures var found := Filter(Both(Matches(input), AfterCursor(after, input.sort)),
                                ScanRows(table, Admits(actor, input), UpdatedDesc, Pos([], [])));
            && DistinctIds(found)
            && Sort(found, input.sort) == Filter(AfterCursor(after, input.sort), Listing(table, actor, input))
  {
    hide Before, BrowseLess, Sort, Insert, Admits, Matches;
    var o := input.sort;
    var admits, matches, cursor := Admits(actor, input), Matches(input), AfterCursor(after, o);
    var admitted := Filter(admits, table);
    var scan := Sort(admitted, UpdatedDesc);
    AllPass(AfterCursor(Pos([], []), UpdatedDesc), scan);
    var listed := Filter(Both(admits, matches), table);
    FilterTwice(admits, matches, table);
    FilterTwice(matches, cursor, admitted);
    FilterDistinct(admits, table);
    FilterDistinct(Both(admits, matches), table);
    FilterDistinct(cursor, listed);
    SortPermutes(admitted, UpdatedDesc);
    PermutationDistinct(scan, admitted);
    FilterDistinct(Both(matches, cursor), scan);
    FilterPermutes(Both(matches, cursor), scan, admitted);
    SortOfPermutation(Filter(Both(matches, cursor), scan), Filter(cursor, listed), o);
    FilterOfSort(cursor, listed, o);
  }

  /** Sorting what the heap kept gives the best rows in order. */
  lemma KeptRowsSorted(found: seq<Row>, limit: nat, o: SortOrder, items: seq<Row>)
    requires DistinctIds(found) && multiset(items) == multiset(Best(found, limit, o))
    ensures Sort(items, o) == Best(found, limit, o)
  {
    hide Before, Insert;
    var best := Best(found, limit, o);
    SortSorts(found, o);
    SortPermutes(found, o);
    PermutationDistinct(Sort(found, o), found);
    PermutationDistinct(items, best);
    SortSorts(items, o);
    SortPermutes(items, o);
    SortedUnique(Sort(items, o), best, o);
  }

  /** A complete title scan yields the page. */
  lemma TitleScanIsPage(table: seq<Row>, actor: Text, input: BrowseInput, after: Pos, limit: nat, items: seq<Row>)
    requires ValidTable(table) && ByTitle(input.sort)
    requires Collected(items, input, after, limit, ScanRows(table, Admits(actor, input), UpdatedDesc, Pos([], [])))
    ensures Sort(items, input.sort) == Page(table, actor, input, after, limit)
  {
    hide Sort, Filter, Admits, Matches, AfterCursor;
    var found := Filter(Both(Matches(input), AfterCursor(after, input.sort)),
                        ScanRows(table, Admits(actor, input), UpdatedDesc, Pos([], [])));
    ScannedMatchesAreListed(table, actor, input, after);
    KeptRowsSorted(found, limit, input.sort, items);
  }

  /** A timestamp scan that stopped at `limit` matches or ran to the end yields
      the page. */
  lemma TimestampScanIsPage(table: seq<Row>, actor: Text, input: BrowseInput, after: Pos, limit: nat, items: seq<Row>, c: nat)
    requires ValidTable(table) && !ByTitle(input.sort)
    requires var rows := ScanRows(table, Admits(actor, input), input.sort, after);
             && c <= |rows|
             && Collected(items, input, after, limit, rows[..c])
             && (|items| == limit || c == |rows|)
    ensures items == Page(table, actor, input, after, limit)
  {
    hide Before, BrowseLess, Sort, Insert, Admits, Matches, AfterCursor;
    var o := input.sort;
    var admits, matches, cursor := Admits(actor, input), Matches(input), AfterCursor(after, o);
    var rows := ScanRows(table, admits, o, after);
    var all := Sort(Filter(admits, table), o);
    // Filter(matches, rows) is the listing after the cursor
    FilterTwice(cursor, matches, all);
    FilterTwice(matches, cursor, all);
    FilterExtensional(Both(cursor, matches), Both(matches, cursor), all);
    FilterDistinct(admits, table);
    FilterOfSort(matches, Filter(admits, table), o);
    FilterTwice(admits, matches, table);
    assert Filter(matches, rows) == Filter(cursor, Listing(table, actor, input));
    assert rows == rows[..c] + rows[c..];
    FilterAppend(matches, rows[..c], rows[c..]);
  }

  lemma ScanRowsDistinct(table: seq<Row>, where: Row -> bool, o: SortOrder, after: Pos)
    requires ValidTable(table)
    ensures DistinctIds(ScanRows(table, where, o, after))
  {
    FilterDistinct(where, table);
    SortPermutes(Filter(where, table), o);
    PermutationDistinct(Sort(Filter(where, table), o), Filter(where, table));
    FilterDistinct(AfterCursor(after, o), Sort(Filter(where, table), o));
  }

  /** The scan's place: c rows are behind it and the SQL cursor stands on the
      last of them. */
  ghost predicate Placed(table: seq<Row>, where: Row -> bool, o: SortOrder, start: Pos, cursor: Pos, c: nat) {
    var rows := ScanRows(table, where, o, start);
    && c <= |rows|
    && (if c == 0 then cursor == start else cursor == PosOf(rows[c - 1], o))
  }

  lemma PlacedLeaves(table: seq<Row>, where: Row -> bool, o: SortOrder, start: Pos, cursor: Pos, c: nat)
    requires ValidTable(table) && Placed(table, where, o, start, cursor, c)
    ensures ScanRows(table, where, o, cursor) == ScanRows(table, where, o, start)[c..]
  {
    if c > 0 {
      CursorAdvances(table, where, o, start, c - 1);
    }
  }

  /** Every row so far was readable and is accounted for. */
  ghost predicate Scanned(rows: seq<Row>, c: nat, items: seq<Row>, input: BrowseInput, after: Pos, limit: nat) {
    && c <= |rows|
    && (forall i :: 0 <= i < c ==> rows[i].content.Some?)
    && Collected(items, input, after, limit, rows[..c])
  }

  /** One batch: decrypt, move the cursor, match, collect; a timestamp scan
      leaves the batch as soon as the page is full. */
  method ScanBatch(candidates: BrowseHeap, batch: seq<Row>, input: BrowseInput, after: Pos, limit: nat,
                   scanOrder: SortOrder, cursor: Pos, ghost rows: seq<Row>, ghost c: nat)
    returns (readable: bool, last: Pos, ghost c': nat)
    requires limit > 0 && candidates.order == input.sort && DistinctIds(rows)
    requires Scanned(rows, c, candidates.items, input, after, limit)
    requires c + |batch| <= |rows| && batch == rows[c..c + |batch|]
    requires ByTitle(input.sort) ==> candidates.IsHeap()
    requires !ByTitle(input.sort) ==> |candidates.items| < limit
    modifies candidates`items
    ensures ByTitle(input.sort) ==> candidates.IsHeap()
    ensures c <= c' <= c + |batch|
    ensures Scanned(rows, c', candidates.items, input, after, limit)
    ensures if c' == c then last == cursor else last == PosOf(rows[c' - 1], scanOrder)
    ensures !readable ==> c' < c + |batch| && rows[c'].content.None?
    ensures !readable && !ByTitle(input.sort) ==> |candidates.items| < limit
    ensures readable ==> c' == c + |batch| || (!ByTitle(input.sort) && |candidates.items| == limit)
    ensures c' == c ==> batch == [] || !readable
  {
    hide Collected, Before, BrowseLess;
    last := cursor;
    c' := c;
    for j := 0 to |batch|
      invariant c' == c + j
      invariant ByTitle(input.sort) ==> candidates.IsHeap()
      invariant !ByTitle(input.sort) ==> |candidates.items| < limit
      invariant Scanned(rows, c', candidates.items, input, after, limit)
      invariant if c' == c then last == cursor else last == PosOf(rows[c' - 1], scanOrder)
    {
      var row := batch[j];
      assert row == rows[c'];
      if row.content.None? {
        return false, last, c';
      }
      last := PosOf(row, scanOrder);
      assert rows[..c' + 1] == rows[..c'] + [row];
      TakeRow(candidates, row, input, after, limit, rows[..c']);
      c' := c' + 1;
      if !ByTitle(input.sort) && |candidates.items| == limit {
        return true, last, c';
      }
      CollectedBound(candidates.items, input, after, limit, rows[..c']);
    }
    readable := true;
  }

  lemma CollectedBound(items: seq<Row>, input: BrowseInput, after: Pos, limit: nat, scanned: seq<Row>)
    requires Collected(items, input, after, limit, scanned)
    ensures !ByTitle(input.sort) ==> |items| <= limit
  {
  }

  /** `sort.Slice` by the browse order. */
  method SortSlice(items: seq<Row>, o: SortOrder) returns (sorted: seq<Row>)
    ensures sorted == Sort(items, o)
  {
    sorted := [];
    for k := 0 to |items|
      invariant sorted == Sort(items[..k], o)
    {
      assert items[..k + 1][..k] == items[..k];
      sorted := Insert(items[k], sorted, o);
    }
    assert items[..|items|] == items;
  }

  /** Browse returns exactly the page, whatever the sort order and wherever the
      batches fall, or says why not. */
  method Browse(table: seq<Row>, actor: Option<Text>, input: BrowseInput, after: Pos, limit: int)
    returns (r: Result<seq<Row>, BrowseError>)
    requires ValidTable(table)
    ensures CheckInput(actor, input).Some? ==> r == Err(CheckInput(actor, input).value)
    ensures CheckInput(actor, input).None? && limit < 1 ==> r == Err(InvalidLimit)
    ensures r == Err(Forbidden) <==> actor.None?
    ensures r == Err(InvalidScope) <==> actor.Some? && input.scope !in {"", "personal", "shared"}
    ensures r == Err(InvalidItemType) <==>
              (&& actor.Some? && input.scope in {"", "personal", "shared"}
               && input.itemType !in {"", "login", "ssh_key", "credit_card", "identity", "secure_note", "secret"})
    ensures r == Err(UnknownSort) ==> input.sort == UnknownOrder
    ensures r.Ok? || r.error.Unreadable? ==> input.sort != UnknownOrder && limit >= 1
    ensures CheckInput(actor, input).None? && limit >= 1 ==>
              if Blocked(table, actor.value, input, after, limit) then r == Err(Unreadable)
              else r == Ok(Page(table, actor.value, input, after, limit))
  {
    hide Collected, Before, BrowseLess, Sort, Insert, Admits, Matches, AfterCursor, Filter, Placed, Page, SqlSort;
    var rejected := CheckInput(actor, input);
    if rejected.Some? {
      return Err(rejected.value);
    }
    if limit < 1 {
      return Err(InvalidLimit);
    }
    var byTitle := ByTitle(input.sort);
    var where := Admits(actor.value, input);
    var candidates := new BrowseHeap(input.sort);
    var cursor, scanOrder := after, input.sort;
    if byTitle {
      cursor, scanOrder := Pos([], []), UpdatedDesc;
    }
    var batchSize := BROWSE_BATCH_SIZE;
    if !byTitle && input.query == [] && input.tag == [] {
      batchSize := limit;
    }
    ghost var start := cursor;
    ghost var rows := ScanRows(table, where, scanOrder, start);
    ghost var c: nat := 0;
    ScanRowsDistinct(table, where, scanOrder, start);
    StartScan(table, where, scanOrder, start, input, after, limit);
    while true
      invariant Placed(table, where, scanOrder, start, cursor, c)
      invariant Scanned(rows, c, candidates.items, input, after, limit)
      invariant byTitle ==> candidates.IsHeap()
      invariant !byTitle ==> |candidates.items| < limit
      decreases |rows| - c
    {
      var batch := ListBrowseRows(table, where, scanOrder, cursor.key, cursor.id, batchSize);
      BatchIsNext(table, where, scanOrder, start, cursor, c, batchSize);
      var readable;
      ghost var c';
      readable, cursor, c' := ScanBatch(candidates, batch, input, after, limit, scanOrder, cursor, rows, c);
      if !readable {
        BlockedHere(table, actor.value, input, after, limit, rows, c', candidates.items);
        return Err(Unreadable);
      }
      StillPlaced(table, where, scanOrder, start, cursor, c, c');
      c := c';
      if (!byTitle && |candidates.items| == limit) || |batch| < batchSize {
        break;
      }
      CollectedBound(candidates.items, input, after, limit, rows[..c]);
    }
    NotBlocked(table, actor.value, input, after, limit, rows, c, candidates.items);
    var items := candidates.items;
    assert rows[..|rows|] == rows;
    if byTitle {
      TitleScanIsPage(table, actor.value, input, after, limit, items);
      items := SortSlice(items, input.sort);
    } else {
      TimestampScanIsPage(table, actor.value, input, after, limit, items, c);
    }
    return Ok(items);
  }

  lemma StartScan(table: seq<Row>, where: Row -> bool, o: SortOrder, start: Pos, input: BrowseInput, after: Pos, limit: nat)
    ensures Placed(table, where, o, start, start, 0)
    ensures Collected([], input, after, limit, ScanRows(table, where, o, start)[..0])
  {
  }

  /** The next SQL batch is the next stretch of the scan. */
  lemma BatchIsNext(table: seq<Row>, where: Row -> bool, o: SortOrder, start: Pos, cursor: Pos, c: nat, batchSize: nat)
    requires ValidTable(table) && !ByTitle(o)
    requires Placed(table, where, o, start, cursor, c)
    ensures var rows := ScanRows(table, where, o, start);
            var batch := ListBrowseRows(table, where, o, cursor.key, cursor.id, batchSize);
            && c + |batch| <= |rows|
            && batch == rows[c..c + |batch|]
            && |batch| <= batchSize
            && (|batch| < batchSize ==> c + |batch| == |rows|)
  {
    SqlPage(table, where, o, cursor, batchSize);
    PlacedLeaves(table, where, o, start, cursor, c);
  }

  lemma StillPlaced(table: seq<Row>, where: Row -> bool, o: SortOrder, start: Pos, cursor: Pos, c: nat, c': nat)
    requires c <= c' <= |ScanRows(table, where, o, start)|
    requires if c' == c then Placed(table, where, o, start, cursor, c)
             else cursor == PosOf(ScanRows(table, where, o, start)[c' - 1], o)
    ensures Placed(table, where, o, start, cursor, c')
  {
  }

  lemma BlockedHere(table: seq<Row>, actor: Text, input: BrowseInput, after: Pos, limit: nat, rows: seq<Row>, c: nat, items: seq<Row>)
    requires rows == ScanRows(table, Admits(actor, input), ScanOrder(input.sort), if ByTitle(input.sort) then Pos([], []) else after)
    requires Scanned(rows, c, items, input, after, limit) && c < |rows| && rows[c].content.None?
    requires !ByTitle(input.sort) ==> |items| < limit
    ensures Blocked(table, actor, input, after, limit)
  {
    hide Admits, Matches, Sort;
    if ByTitle(input.sort) {
      ScanRowsAdmitted(table, Admits(actor, input), UpdatedDesc, rows[c]);
    }
  }

  lemma ScanRowsAdmitted(table: seq<Row>, where: Row -> bool, o: SortOrder, r: Row)
    ensures r in ScanRows(table, where, o, Pos([], [])) <==> r in Filter(where, table)
  {
    FilterMembers(AfterCursor(Pos([], []), o), Sort(Filter(where, table), o), r);
    SortPermutes(Filter(where, table), o);
    SameMembers(Sort(Filter(where, table), o), Filter(where, table), r);
  }

  lemma {:induction false} FilterPrefixGrows(p: Row -> bool, xs: seq<Row>, c: nat, k: nat)
    requires c <= k <= |xs|
    ensures |Filter(p, xs[..c])| <= |Filter(p, xs[..k])|
  {
    assert xs[..k] == xs[..c] + xs[c..k];
    FilterAppend(p, xs[..c], xs[c..k]);
  }

  lemma NotBlocked(table: seq<Row>, actor: Text, input: BrowseInput, after: Pos, limit: nat, rows: seq<Row>, c: nat, items: seq<Row>)
    requires rows == ScanRows(table, Admits(actor, input), ScanOrder(input.sort), if ByTitle(input.sort) then Pos([], []) else after)
    requires Scanned(rows, c, items, input, after, limit)
    requires c == |rows| || (!ByTitle(input.sort) && |items| == limit)
    ensures !Blocked(table, actor, input, after, limit)
  {
    hide Admits, Matches, Sort;
    if ByTitle(input.sort) {
      forall r | r in Filter(Admits(actor, input), table) ensures r.content.Some? {
        ScanRowsAdmitted(table, Admits(actor, input), UpdatedDesc, r);
      }
    } else {
      forall k | 0 <= k < |rows| && rows[k].content.None?
        ensures |Filter(Matches(input), rows[..k])| >= limit
      {
        FilterPrefixGrows(Matches(input), rows, c, k);
      }
    }
  }
}
