/** The browse orders, in the Go comparison and in the SQL text, and sorting by
    them (internal/vault/browse.go). */
module BrowseOrder {
  import opened Bytes
  import opened Wrappers
  import opened Order

  /** The decrypted part that browsing looks at. `titleKey` is the lower-cased
      title and `searchable` the lower-cased search text. */
  datatype Content = Content(titleKey: Text, tags: seq<Text>, searchable: Text)

  /** A stored row; its content is None when the payload does not authenticate. */
  datatype Row = Row(
    id: Text,
    scope: string,
    owner: Option<Text>,
    itemType: string,
    favorite: bool,
    createdAt: Text,
    updatedAt: Text,
    deleted: bool,
    content: Option<Content>)

  datatype SortOrder = Unset | UpdatedDesc | UpdatedAsc | CreatedDesc | TitleAsc | TitleDesc | UnknownOrder

  predicate ByTitle(o: SortOrder) {
    o == TitleAsc || o == TitleDesc
  }

  /** A position in an order: what a cursor carries. */
  datatype Pos = Pos(key: Text, id: Text)

  function BrowseKey(row: Row, o: SortOrder): Text {
    match o
    case TitleAsc | TitleDesc => if row.content.Some? then row.content.value.titleKey else []
    case CreatedDesc => row.createdAt
    case _ => row.updatedAt
  }

  function PosOf(row: Row, o: SortOrder): Pos {
    Pos(BrowseKey(row, o), row.id)
  }

  predicate BrowseLess(p: Pos, q: Pos, o: SortOrder) {
    if p.key == q.key then TextLess(p.id, q.id)
    else if o == TitleAsc || o == UpdatedAsc then TextLess(p.key, q.key)
    else TextLess(q.key, p.key)
  }

  /** The SQL side: a column, a direction, and the cursor predicate
      `column <cmp> ? OR (column = ? AND id > ?)` under `ORDER BY column dir, id ASC`. */
  datatype Direction = Asc | Desc

  function SqlDirection(o: SortOrder): Direction {
    if o == UpdatedAsc then Asc else Desc
  }

  function SqlColumn(row: Row, o: SortOrder): Text {
    if o == CreatedDesc then row.createdAt else row.updatedAt
  }

  predicate SqlAfter(row: Row, o: SortOrder, afterKey: Text, afterId: Text) {
    var column := SqlColumn(row, o);
    var compared := if SqlDirection(o) == Asc then TextLess(afterKey, column) else TextLess(column, afterKey);
    compared || (column == afterKey && TextLess(afterId, row.id))
  }

  predicate SqlBefore(a: Row, b: Row, o: SortOrder) {
    var x, y := SqlColumn(a, o), SqlColumn(b, o);
    if x == y then TextLess(a.id, b.id)
    else if SqlDirection(o) == Asc then TextLess(x, y)
    else TextLess(y, x)
  }

  /** The two orders agree on every order that SQL sorts by. */
  lemma SqlAgrees(a: Row, b: Row, o: SortOrder, after: Pos)
    requires !ByTitle(o)
    ensures SqlBefore(a, b, o) <==> BrowseLess(PosOf(a, o), PosOf(b, o), o)
    ensures SqlAfter(a, o, after.key, after.id) <==> BrowseLess(after, PosOf(a, o), o)
  {
    TextLessIrreflexive(after.key);
  }

  // ----- a strict total order on positions -----

  lemma LessIrreflexive(p: Pos, o: SortOrder)
    ensures !BrowseLess(p, p, o)
  {
    TextLessIrreflexive(p.id);
  }

  lemma LessTotal(p: Pos, q: Pos, o: SortOrder)
    ensures p == q || BrowseLess(p, q, o) || BrowseLess(q, p, o)
  {
    TextLessTotal(p.key, q.key);
    TextLessTotal(p.id, q.id);
  }

  lemma LessTransitive(p: Pos, q: Pos, r: Pos, o: SortOrder)
    requires BrowseLess(p, q, o) && BrowseLess(q, r, o)
    ensures BrowseLess(p, r, o)
  {
    if p.key == q.key && q.key == r.key {
      TextLessTransitive(p.id, q.id, r.id);
    } else if p.key != q.key && q.key != r.key {
      if o == TitleAsc || o == UpdatedAsc {
        TextLessTransitive(p.key, q.key, r.key);
      } else {
        TextLessTransitive(r.key, q.key, p.key);
      }
      if p.key == r.key {
        TextLessIrreflexive(p.key);
      }
    }
  }

  lemma LessAsymmetric(p: Pos, q: Pos, o: SortOrder)
    requires BrowseLess(p, q, o)
    ensures !BrowseLess(q, p, o)
  {
    if BrowseLess(q, p, o) {
      LessTransitive(p, q, p, o);
      LessIrreflexive(p, o);
    }
  }

  // ----- sorting -----

  predicate Before(a: Row, b: Row, o: SortOrder) {
    BrowseLess(PosOf(a, o), PosOf(b, o), o)
  }

  predicate Sorted(xs: seq<Row>, o: SortOrder) {
    forall i, j :: 0 <= i < j < |xs| ==> Before(xs[i], xs[j], o)
  }

  predicate DistinctIds(xs: seq<Row>) {
    forall i, j :: 0 <= i < j < |xs| ==> xs[i].id != xs[j].id
  }

  function Insert(x: Row, xs: seq<Row>, o: SortOrder): (r: seq<Row>)
    ensures |r| == |xs| + 1
  {
    if xs == [] then [x]
    else if Before(x, xs[0], o) then [x] + xs
    else [xs[0]] + Insert(x, xs[1..], o)
  }

  /** The rows in the given order; later rows are inserted into the sorted
      earlier ones. */
  function Sort(xs: seq<Row>, o: SortOrder): (r: seq<Row>)
    ensures |r| == |xs|
  {
    if xs == [] then []
    else Insert(xs[|xs| - 1], Sort(xs[..|xs| - 1], o), o)
  }

  lemma {:induction false} InsertPermutes(x: Row, xs: seq<Row>, o: SortOrder)
    ensures multiset(Insert(x, xs, o)) == multiset(xs) + multiset{x}
  {
    if xs != [] && !Before(x, xs[0], o) {
      InsertPermutes(x, xs[1..], o);
      assert xs == [xs[0]] + xs[1..];
    }
  }

  lemma {:induction false} SortPermutes(xs: seq<Row>, o: SortOrder)
    ensures multiset(Sort(xs, o)) == multiset(xs)
  {
    hide Insert, Before;
    if xs != [] {
      var init, last := xs[..|xs| - 1], xs[|xs| - 1];
      SortPermutes(init, o);
      InsertPermutes(last, Sort(init, o), o);
      assert xs == init + [last];
      assert multiset(xs) == multiset(init) + multiset{last};
    }
  }

  lemma SameMembers(xs: seq<Row>, ys: seq<Row>, x: Row)
    requires multiset(xs) == multiset(ys)
    ensures x in xs <==> x in ys
  {
    assert x in xs <==> x in multiset(xs);
    assert x in ys <==> x in multiset(ys);
  }

  lemma PrependSorted(x: Row, xs: seq<Row>, o: SortOrder)
    requires Sorted(xs, o) && forall y :: y in xs ==> Before(x, y, o)
    ensures Sorted([x] + xs, o)
  {
    hide Before;
  }

  lemma {:induction false} InsertSorted(x: Row, xs: seq<Row>, o: SortOrder)
    requires Sorted(xs, o)
    requires forall y :: y in xs ==> y.id != x.id
    ensures Sorted(Insert(x, xs, o), o)
  {
    if xs != [] {
      LessTotal(PosOf(x, o), PosOf(xs[0], o), o);
      if Before(x, xs[0], o) {
        forall y | y in xs ensures Before(x, y, o) {
          if y != xs[0] {
            assert Before(xs[0], y, o);
            LessTransitive(PosOf(x, o), PosOf(xs[0], o), PosOf(y, o), o);
          }
        }
        PrependSorted(x, xs, o);
      } else {
        InsertSorted(x, xs[1..], o);
        var rest := Insert(x, xs[1..], o);
        InsertPermutes(x, xs[1..], o);
        forall y | y in rest ensures Before(xs[0], y, o) {
          assert y in multiset(rest);
          assert y == x || y in xs[1..];
        }
        PrependSorted(xs[0], rest, o);
      }
    }
  }

  lemma {:induction false} SortSorts(xs: seq<Row>, o: SortOrder)
    requires DistinctIds(xs)
    ensures Sorted(Sort(xs, o), o)
  {
    if xs != [] {
      var init := xs[..|xs| - 1];
      SortSorts(init, o);
      SortPermutes(init, o);
      forall y | y in Sort(init, o) ensures y.id != xs[|xs| - 1].id {
        SameMembers(Sort(init, o), init, y);
      }
      InsertSorted(xs[|xs| - 1], Sort(init, o), o);
    }
  }

  /** A sorted arrangement of given rows is unique. */
  lemma {:induction false} SortedUnique(xs: seq<Row>, ys: seq<Row>, o: SortOrder)
    requires Sorted(xs, o) && Sorted(ys, o)
    requires multiset(xs) == multiset(ys)
    ensures xs == ys
  {
    assert |multiset(xs)| == |xs| && |multiset(ys)| == |ys|;
    if xs != [] {
      assert xs[0] in multiset(ys) && (ys != [] ==> ys[0] in multiset(xs));
      assert xs[0] in ys && ys[0] in xs;
      if xs[0] != ys[0] {
        assert Before(ys[0], xs[0], o) && Before(xs[0], ys[0], o);
        LessAsymmetric(PosOf(xs[0], o), PosOf(ys[0], o), o);
      }
      assert xs == [xs[0]] + xs[1..] && ys == [ys[0]] + ys[1..];
      assert multiset(xs[1..]) == multiset(xs) - multiset{xs[0]};
      assert multiset(ys[1..]) == multiset(ys) - multiset{ys[0]};
      SortedUnique(xs[1..], ys[1..], o);
    }
  }

  // ----- filtering -----

  function Filter(p: Row -> bool, xs: seq<Row>): (r: seq<Row>) {
    if xs == [] then []
    else if p(xs[0]) then [xs[0]] + Filter(p, xs[1..])
    else Filter(p, xs[1..])
  }

  lemma {:induction false} FilterMembers(p: Row -> bool, xs: seq<Row>, x: Row)
    ensures x in Filter(p, xs) <==> x in xs && p(x)
  {
    if xs != [] {
      FilterMembers(p, xs[1..], x);
      assert xs == [xs[0]] + xs[1..];
    }
  }

  lemma {:induction false} FilterAppend(p: Row -> bool, xs: seq<Row>, ys: seq<Row>)
    ensures Filter(p, xs + ys) == Filter(p, xs) + Filter(p, ys)
  {
    if xs == [] {
      assert xs + ys == ys;
    } else {
      assert (xs + ys)[1..] == xs[1..] + ys;
      FilterAppend(p, xs[1..], ys);
    }
  }

  lemma {:induction false} FilterCount(p: Row -> bool, xs: seq<Row>, x: Row)
    ensures multiset(Filter(p, xs))[x] == if p(x) then multiset(xs)[x] else 0
  {
    if xs != [] {
      FilterCount(p, xs[1..], x);
      assert xs == [xs[0]] + xs[1..];
    }
  }

  lemma FilterPermutes(p: Row -> bool, xs: seq<Row>, ys: seq<Row>)
    requires multiset(xs) == multiset(ys)
    ensures multiset(Filter(p, xs)) == multiset(Filter(p, ys))
  {
    forall x ensures multiset(Filter(p, xs))[x] == multiset(Filter(p, ys))[x] {
      FilterCount(p, xs, x);
      FilterCount(p, ys, x);
    }
  }

  lemma {:induction false} FilterSorted(p: Row -> bool, xs: seq<Row>, o: SortOrder)
    requires Sorted(xs, o)
    ensures Sorted(Filter(p, xs), o)
  {
    if xs != [] {
      FilterSorted(p, xs[1..], o);
      forall y | y in Filter(p, xs[1..]) ensures Before(xs[0], y, o) {
        FilterMembers(p, xs[1..], y);
      }
    }
  }

  lemma {:induction false} FilterDistinct(p: Row -> bool, xs: seq<Row>)
    requires DistinctIds(xs)
    ensures DistinctIds(Filter(p, xs))
  {
    if xs != [] {
      FilterDistinct(p, xs[1..]);
      forall y | y in Filter(p, xs[1..]) ensures y.id != xs[0].id {
        FilterMembers(p, xs[1..], y);
      }
    }
  }

  /** Filtering commutes with sorting. */
  lemma FilterOfSort(p: Row -> bool, xs: seq<Row>, o: SortOrder)
    requires DistinctIds(xs)
    ensures Filter(p, Sort(xs, o)) == Sort(Filter(p, xs), o)
  {
    SortSorts(xs, o);
    FilterSorted(p, Sort(xs, o), o);
    FilterDistinct(p, xs);
    SortSorts(Filter(p, xs), o);
    SortPermutes(xs, o);
    SortPermutes(Filter(p, xs), o);
    FilterPermutes(p, Sort(xs, o), xs);
    SortedUnique(Filter(p, Sort(xs, o)), Sort(Filter(p, xs), o), o);
  }

  /** Sorting does not depend on the arrangement it starts from. */
  lemma SortOfPermutation(xs: seq<Row>, ys: seq<Row>, o: SortOrder)
    requires DistinctIds(xs) && DistinctIds(ys) && multiset(xs) == multiset(ys)
    ensures Sort(xs, o) == Sort(ys, o)
  {
    SortSorts(xs, o);
    SortSorts(ys, o);
    SortPermutes(xs, o);
    SortPermutes(ys, o);
    SortedUnique(Sort(xs, o), Sort(ys, o), o);
  }

  /** After a position of a sorted list come exactly the rows behind it. */
  lemma {:induction false} SuffixAfter(xs: seq<Row>, o: SortOrder, k: nat, p: Row -> bool)
    requires Sorted(xs, o) && k < |xs|
    requires forall r: Row :: p(r) <==> BrowseLess(PosOf(xs[k], o), PosOf(r, o), o)
    ensures Filter(p, xs) == xs[k + 1..]
  {
    if k == 0 {
      LessIrreflexive(PosOf(xs[0], o), o);
      AllPass(p, xs[1..]);
    } else {
      LessAsymmetric(PosOf(xs[0], o), PosOf(xs[k], o), o);
      SuffixAfter(xs[1..], o, k - 1, p);
    }
  }

  lemma {:induction false} AllPass(p: Row -> bool, xs: seq<Row>)
    requires forall i :: 0 <= i < |xs| ==> p(xs[i])
    ensures Filter(p, xs) == xs
  {
    if xs != [] {
      AllPass(p, xs[1..]);
    }
  }
}
