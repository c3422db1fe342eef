/** What a page shows, said of the columns themselves (internal/vault/browse.go). */
module BrowseMeaning {
  import opened Bytes
  import opened Wrappers
  import opened Order
  import opened BrowseOrder
  import opened BrowseHeap
  import opened Browse
  import opened BrowsePages

  /** Smaller on one column, or equal there and smaller by id. */
  predicate Up(x: Text, xId: Text, y: Text, yId: Text) { if x == y then TextLess(xId, yId) else TextLess(x, y) }

  /** Greater on one column, or equal there and smaller by id. */
  predicate Down(x: Text, xId: Text, y: Text, yId: Text) { if x == y then TextLess(xId, yId) else TextLess(y, x) }

  /** a is shown before b: by title or by time, upwards or downwards, and by id
      upwards among equals. */
  predicate ShownBefore(a: Row, b: Row, o: SortOrder) {
    match o
    case TitleAsc =>
      a.content.Some? && b.content.Some? && Up(a.content.value.titleKey, a.id, b.content.value.titleKey, b.id)
    case TitleDesc =>
      a.content.Some? && b.content.Some? && Down(a.content.value.titleKey, a.id, b.content.value.titleKey, b.id)
    case UpdatedAsc => Up(a.updatedAt, a.id, b.updatedAt, b.id)
    case CreatedDesc => Down(a.createdAt, a.id, b.createdAt, b.id)
    case UpdatedDesc | Unset | UnknownOrder => Down(a.updatedAt, a.id, b.updatedAt, b.id)
  }

  /** r lies behind the position that a cursor carries. */
  predicate Behind(after: Pos, r: Row, o: SortOrder) {
    match o
    case TitleAsc => r.content.Some? && Up(after.key, after.id, r.content.value.titleKey, r.id)
    case TitleDesc => r.content.Some? && Down(after.key, after.id, r.content.value.titleKey, r.id)
    case UpdatedAsc => Up(after.key, after.id, r.updatedAt, r.id)
    case CreatedDesc => Down(after.key, after.id, r.createdAt, r.id)
    case UpdatedDesc | Unset | UnknownOrder => Down(after.key, after.id, r.updatedAt, r.id)
  }

  /** What a row in the listing is, and which rows are: those of the table that
      are not in the trash, that the actor owns or that are shared, that open, and
      that meet each filter that was given. */
  lemma ListedIff(table: seq<Row>, actor: Text, input: BrowseInput, r: Row)
    ensures r in Listing(table, actor, input) <==>
              && r in table
              && !r.deleted
              && (r.scope == "shared" || (r.scope == "personal" && r.owner == Some(actor)))
              && r.content.Some?
              && (input.scope != "" ==> r.scope == input.scope)
              && (input.itemType != "" ==> r.itemType == input.itemType)
              && (input.favorite.Some? ==> r.favorite == input.favorite.value)
              && (input.tag != [] ==> input.tag in r.content.value.tags)
              && (input.query != [] ==> exists i :: 0 <= i <= |r.content.value.searchable| && input.query <= r.content.value.searchable[i..])
  {
    hide Sort;
    var p := Both(Admits(actor, input), Matches(input));
    SortPermutes(Filter(p, table), input.sort);
    SameMembers(Listing(table, actor, input), Filter(p, table), r);
    FilterMembers(p, table, r);
  }

  /** The listing, and so the pages put together, is in the requested order. */
  lemma ListingInOrder(table: seq<Row>, actor: Text, input: BrowseInput, i: nat, j: nat)
    requires ValidTable(table) && i < j < |Listing(table, actor, input)|
    ensures ShownBefore(Listing(table, actor, input)[i], Listing(table, actor, input)[j], input.sort)
  {
    var listing := Listing(table, actor, input);
    ListingSorted(table, actor, input);
    ListedIff(table, actor, input, listing[i]);
    ListedIff(table, actor, input, listing[j]);
    hide Listing;
    assert Before(listing[i], listing[j], input.sort);
  }

  /** A page is the part of the listing that lies behind the cursor, in the same
      order, as far as the limit goes. */
  lemma PageOfListing(table: seq<Row>, actor: Text, input: BrowseInput, after: Pos, limit: nat) returns (k: nat)
    requires ValidTable(table)
    ensures var page, listing := Page(table, actor, input, after, limit), Listing(table, actor, input);
            && k <= |listing| && page == (if |listing| - k <= limit then listing[k..] else listing[k..k + limit])
            && (forall i :: 0 <= i < k ==> after.id != [] && !Behind(after, listing[i], input.sort))
            && (forall i :: k <= i < |listing| ==> after.id == [] || Behind(after, listing[i], input.sort))
  {
    var listing := Listing(table, actor, input);
    ListingSorted(table, actor, input);
    forall i | 0 <= i < |listing| ensures listing[i].content.Some? {
      ListedIff(table, actor, input, listing[i]);
    }
    hide Listing, Sorted, AfterCursor, Behind, Filter;
    k := Split(listing, after, input.sort);
    FilterIsSuffix(AfterCursor(after, input.sort), listing, k);
    forall i | 0 <= i < |listing|
      ensures AfterCursor(after, input.sort)(listing[i]) <==> after.id == [] || Behind(after, listing[i], input.sort)
    {
      BehindIs(after, listing[i], input.sort);
    }
  }

  lemma BehindIs(after: Pos, r: Row, o: SortOrder)
    requires r.content.Some?
    ensures AfterCursor(after, o)(r) <==> after.id == [] || Behind(after, r, o)
  {
  }

  lemma FilterIsSuffix(p: Row -> bool, xs: seq<Row>, k: nat)
    requires k <= |xs|
    requires forall i :: 0 <= i < k ==> !p(xs[i])
    requires forall i :: k <= i < |xs| ==> p(xs[i])
    ensures Filter(p, xs) == xs[k..]
  {
    assert xs == xs[..k] + xs[k..];
    FilterAppend(p, xs[..k], xs[k..]);
    NonePass(p, xs[..k]);
    AllPass(p, xs[k..]);
  }

  /** Where the rows behind the cursor begin. */
  lemma {:induction false} Split(listing: seq<Row>, after: Pos, o: SortOrder) returns (k: nat)
    requires Sorted(listing, o)
    ensures k <= |listing|
    ensures forall i :: 0 <= i < k ==> !AfterCursor(after, o)(listing[i])
    ensures forall i :: k <= i < |listing| ==> AfterCursor(after, o)(listing[i])
  {
    if listing == [] || AfterCursor(after, o)(listing[0]) {
      k := 0;
      forall i | 0 < i < |listing| ensures AfterCursor(after, o)(listing[i]) {
        assert Before(listing[0], listing[i], o);
        if after.id != [] {
          LessTransitive(after, PosOf(listing[0], o), PosOf(listing[i], o), o);
        }
      }
    } else {
      assert forall i, j :: 0 <= i < j < |listing[1..]| ==> Before(listing[1..][i], listing[1..][j], o) by {
        forall i, j | 0 <= i < j < |listing[1..]| ensures Before(listing[1..][i], listing[1..][j], o) {
          assert Before(listing[i + 1], listing[j + 1], o);
        }
      }
      var n := Split(listing[1..], after, o);
      k := n + 1;
      forall i | 1 <= i < k ensures !AfterCursor(after, o)(listing[i]) {
        assert listing[i] == listing[1..][i - 1];
      }
      forall i | k <= i < |listing| ensures AfterCursor(after, o)(listing[i]) {
        assert listing[i] == listing[1..][i - 1];
      }
    }
  }

  lemma {:induction false} NonePass(p: Row -> bool, xs: seq<Row>)
    requires forall i :: 0 <= i < |xs| ==> !p(xs[i])
    ensures Filter(p, xs) == []
  {
    if xs != [] {
      NonePass(p, xs[1..]);
    }
  }
}
