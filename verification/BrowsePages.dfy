/** The pages of a listing: one-row lookahead, the next cursor, and following
    it to the end (internal/httpapi/items_browse.go). */
module BrowsePages {
  import opened Bytes
  import opened Wrappers
  import opened BrowseOrder
  import opened BrowseHeap
  import opened Browse

  datatype PageError = BadPageSize | Refused(cause: BrowseError)

  datatype PageResult = PageResult(items: seq<Row>, next: Option<Pos>)

  const NO_CURSOR: Pos := Pos([], [])

  /** No row is in the way of the whole listing. */
  ghost predicate AllReadable(table: seq<Row>, actor: Text, input: BrowseInput) {
    forall r :: r in Filter(Admits(actor, input), table) ==> r.content.Some?
  }

  /** A cursor stands at the start of the listing or on one of its rows, and k
      rows are behind it. */
  ghost predicate Stands(listing: seq<Row>, cursor: Pos, k: nat, o: SortOrder) {
    k <= |listing| && (if k == 0 then cursor == NO_CURSOR else cursor == PosOf(listing[k - 1], o))
  }

  lemma ListingSorted(table: seq<Row>, actor: Text, input: BrowseInput)
    requires ValidTable(table)
    ensures Sorted(Listing(table, actor, input), input.sort)
    ensures forall r :: r in Listing(table, actor, input) ==> r.id != [] && r in table
  {
    var p := Both(Admits(actor, input), Matches(input));
    FilterDistinct(p, table);
    SortSorts(Filter(p, table), input.sort);
    SortPermutes(Filter(p, table), input.sort);
    forall r | r in Listing(table, actor, input) ensures r.id != [] && r in table {
      SameMembers(Listing(table, actor, input), Filter(p, table), r);
      FilterMembers(p, table, r);
    }
  }

  /** The page at a cursor is the next stretch of the listing. */
  lemma PageIsStretch(table: seq<Row>, actor: Text, input: BrowseInput, cursor: Pos, k: nat, limit: nat)
    requires ValidTable(table)
    requires Stands(Listing(table, actor, input), cursor, k, input.sort)
    ensures Page(table, actor, input, cursor, limit) == Cut(Listing(table, actor, input)[k..], limit)
  {
    hide Listing, BrowseLess, Before;
    var listing := Listing(table, actor, input);
    ListingSorted(table, actor, input);
    var p := AfterCursor(cursor, input.sort);
    if k == 0 {
      AllPass(p, listing);
      assert listing[0..] == listing;
    } else {
      assert listing[k - 1] in listing;
      SuffixAfter(listing, input.sort, k - 1, p);
    }
  }

  lemma ReadableNotBlocked(table: seq<Row>, actor: Text, input: BrowseInput, after: Pos, limit: nat)
    requires AllReadable(table, actor, input)
    ensures !Blocked(table, actor, input, after, limit)
  {
    hide Admits, Matches, Sort, BrowseLess, Filter, Before;
    if !ByTitle(input.sort) {
      var rows := ScanRows(table, Admits(actor, input), input.sort, after);
      forall k | 0 <= k < |rows| ensures rows[k].content.Some? {
        var admitted := Filter(Admits(actor, input), table);
        FilterMembers(AfterCursor(after, input.sort), Sort(admitted, input.sort), rows[k]);
        SortPermutes(admitted, input.sort);
        SameMembers(Sort(admitted, input.sort), admitted, rows[k]);
      }
    }
  }

  /** The handler: one row more than the page is asked for, and the cursor of
      the last kept row when that row exists. */
  method BrowsePage(table: seq<Row>, actor: Option<Text>, input: BrowseInput, cursor: Pos, requested: Option<int>)
    returns (r: Result<PageResult, PageError>)
    requires ValidTable(table)
    ensures requested.Some? && !(1 <= requested.value <= MAX_PAGE_SIZE) ==> r == Err(BadPageSize)
    ensures r.Ok? ==>
              var limit := requested.GetOr(DEFAULT_PAGE_SIZE);
              && 1 <= limit && actor.Some?
              && r.value.items == Page(table, actor.value, input, cursor, limit)
              && var peek := Page(table, actor.value, input, cursor, limit + 1);
                 r.value.next == (if |peek| > limit then Some(PosOf(r.value.items[limit - 1], input.sort)) else None)
    ensures (&& (requested.Some? ==> 1 <= requested.value <= MAX_PAGE_SIZE)
             && actor.Some? && CheckInput(actor, input).None?
             && AllReadable(table, actor.value, input)) ==> r.Ok?
  {
    hide Admits, Matches, Sort, BrowseLess, Filter, Before, Blocked, AfterCursor;
    var limit := DEFAULT_PAGE_SIZE;
    if requested.Some? {
      if requested.value < 1 || requested.value > MAX_PAGE_SIZE {
        return Err(BadPageSize);
      }
      limit := requested.value;
    }
    if actor.Some? && AllReadable(table, actor.value, input) {
      ReadableNotBlocked(table, actor.value, input, cursor, limit + 1);
    }
    var found := Browse.Browse(table, actor, input, cursor, limit + 1);
    if found.Err? {
      return Err(Refused(found.error));
    }
    var items := found.value;
    var next := None;
    if |items| > limit {
      items := items[..limit];
      var last := items[|items| - 1];
      next := Some(PosOf(last, input.sort));
    }
    r := Ok(PageResult(items, next));
  }

  /** Following `next_cursor` over an unchanged vault: the pages tile the
      listing, every match exactly once, in order. */
  method FollowPages(table: seq<Row>, actor: Text, input: BrowseInput, pageSize: int)
    returns (all: seq<Row>, pages: seq<seq<Row>>)
    requires ValidTable(table)
    requires CheckInput(Some(actor), input).None? && AllReadable(table, actor, input)
    requires 1 <= pageSize <= MAX_PAGE_SIZE
    ensures all == Listing(table, actor, input)
    ensures all == Concat(pages)
    ensures forall i :: 0 <= i < |pages| - 1 ==> |pages[i]| == pageSize
  {
    hide Listing, Sort, BrowseLess, Filter, Before, Page, AllReadable;
    ghost var listing := Listing(table, actor, input);
    var cursor := NO_CURSOR;
    all, pages := [], [];
    while true
      invariant |all| <= |listing| && all == listing[..|all|]
      invariant Stands(listing, cursor, |all|, input.sort)
      invariant all == Concat(pages)
      invariant forall i :: 0 <= i < |pages| ==> |pages[i]| == pageSize
      decreases |listing| - |all|
    {
      var r := BrowsePage(table, Some(actor), input, cursor, Some(pageSize));
      PageIsStretch(table, actor, input, cursor, |all|, pageSize);
      PageIsStretch(table, actor, input, cursor, |all|, pageSize + 1);
      ghost var k := |all|;
      ConcatSnoc(pages, r.value.items);
      pages := pages + [r.value.items];
      all := all + r.value.items;
      assert all == listing[..|all|];
      if r.value.next.None? {
        assert |all| == |listing|;
        break;
      }
      cursor := r.value.next.value;
    }
    assert listing[..|listing|] == listing;
  }

  function Concat(pages: seq<seq<Row>>): seq<Row> {
    if pages == [] then [] else Concat(pages[..|pages| - 1]) + pages[|pages| - 1]
  }

  lemma ConcatSnoc(pages: seq<seq<Row>>, page: seq<Row>)
    ensures Concat(pages + [page]) == Concat(pages) + page
  {
    assert (pages + [page])[..|pages|] == pages;
  }

  /** What a page shows, the actor may read. */
  lemma PageIsAuthorised(table: seq<Row>, actor: Text, input: BrowseInput, after: Pos, limit: nat, r: Row)
    requires r in Page(table, actor, input, after, limit)
    ensures r in table && !r.deleted && (r.scope == "shared" || r.owner == Some(actor))
  {
    hide Sort, BrowseLess, Before;
    var p := Both(Admits(actor, input), Matches(input));
    var listing := Listing(table, actor, input);
    FilterMembers(AfterCursor(after, input.sort), listing, r);
    SortPermutes(Filter(p, table), input.sort);
    SameMembers(listing, Filter(p, table), r);
    FilterMembers(p, table, r);
  }
}
