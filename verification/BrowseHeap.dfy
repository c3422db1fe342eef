/** The bounded heap that keeps the best `limit` matches of a title scan
    (internal/vault/browse.go over container/heap). */
module BrowseHeap {
  import opened Bytes
  import opened BrowseOrder

  /** The first `limit` of the rows in the given order. */
  function Best(xs: seq<Row>, limit: nat, o: SortOrder): seq<Row> {
    Cut(Sort(xs, o), limit)
  }

  function Cut(xs: seq<Row>, n: nat): seq<Row> {
    if |xs| <= n then xs else xs[..n]
  }

  function Parent(k: nat): nat {
    if k == 0 then 0 else (k - 1) / 2
  }

  /** A row behind a cut-off leaves the rows before it alone. */
  lemma {:induction false} InsertPastCut(x: Row, xs: seq<Row>, n: nat, o: SortOrder)
    requires Sorted(xs, o) && 0 < n <= |xs|
    requires !Before(x, xs[n - 1], o)
    ensures Insert(x, xs, o)[..n] == xs[..n]
  {
    hide BrowseLess, PosOf;
    if Before(x, xs[0], o) {
      if n > 1 {
        LessTransitive(PosOf(x, o), PosOf(xs[0], o), PosOf(xs[n - 1], o), o);
      }
    } else if n > 1 {
      InsertPastCut(x, xs[1..], n - 1, o);
      var rest := Insert(x, xs[1..], o);
      assert ([xs[0]] + rest)[..n] == [xs[0]] + rest[..n - 1];
      assert xs[..n] == [xs[0]] + xs[1..][..n - 1];
    }
  }

  /** A row before a cut-off pushes the last kept row out. */
  lemma {:induction false} InsertBeforeCut(x: Row, xs: seq<Row>, n: nat, o: SortOrder)
    requires 0 < n <= |xs|
    requires Before(x, xs[n - 1], o)
    ensures Insert(x, xs, o)[..n] == Insert(x, xs[..n - 1], o)
  {
    hide Before;
    if Before(x, xs[0], o) {
      assert ([x] + xs)[..n] == [x] + xs[..n - 1];
    } else {
      InsertBeforeCut(x, xs[1..], n - 1, o);
      var rest := Insert(x, xs[1..], o);
      assert ([xs[0]] + rest)[..n] == [xs[0]] + rest[..n - 1];
      assert xs[..n - 1][1..] == xs[1..][..n - 2];
    }
  }

  lemma PrefixDistinct(seen: seq<Row>, x: Row)
    requires DistinctIds(seen + [x])
    ensures DistinctIds(seen)
    ensures forall y :: y in seen ==> y.id != x.id
  {
    var all := seen + [x];
    forall i, j | 0 <= i < j < |seen| ensures seen[i].id != seen[j].id {
      assert all[i].id != all[j].id;
    }
    forall y | y in seen ensures y.id != x.id {
      var k :| 0 <= k < |seen| && seen[k] == y;
      assert all[k].id != all[|seen|].id;
    }
  }

  lemma SortOfAppend(seen: seq<Row>, x: Row, o: SortOrder)
    ensures Sort(seen + [x], o) == Insert(x, Sort(seen, o), o)
  {
    hide Insert;
    assert (seen + [x])[..|seen|] == seen;
  }

  /** The rows kept after one more row, as a change of the rows kept before. */
  ghost predicate Grown(best: seq<Row>, next: multiset<Row>, x: Row, limit: nat, o: SortOrder)
    requires limit > 0
  {
    if |best| < limit then next == multiset(best) + multiset{x}
    else if Before(x, best[limit - 1], o) then
      next == multiset(best) - multiset{best[limit - 1]} + multiset{x}
    else next == multiset(best)
  }

  lemma CutGrows(all: seq<Row>, x: Row, limit: nat, o: SortOrder)
    requires limit > 0 && Sorted(all, o)
    ensures Grown(Cut(all, limit), multiset(Cut(Insert(x, all, o), limit)), x, limit, o)
  {
    hide Before, Insert, Sorted;
    if |all| < limit {
      InsertPermutes(x, all, o);
    } else {
      var kept := all[..limit];
      assert Cut(all, limit) == kept;
      assert Cut(Insert(x, all, o), limit) == Insert(x, all, o)[..limit];
      if Before(x, all[limit - 1], o) {
        InsertBeforeCut(x, all, limit, o);
        InsertPermutes(x, all[..limit - 1], o);
        assert kept == all[..limit - 1] + [all[limit - 1]];
        hide Cut;
      } else {
        InsertPastCut(x, all, limit, o);
      }
    }
  }

  /** What one more row does to the best rows seen so far. */
  lemma BestGrows(seen: seq<Row>, x: Row, limit: nat, o: SortOrder)
    requires limit > 0 && DistinctIds(seen + [x])
    ensures Grown(Best(seen, limit, o), multiset(Best(seen + [x], limit, o)), x, limit, o)
  {
    hide Before, Insert, Sorted, Sort, Grown;
    PrefixDistinct(seen, x);
    SortSorts(seen, o);
    SortOfAppend(seen, x, o);
    CutGrows(Sort(seen, o), x, limit, o);
  }

  /** k is no worse than its parent. */
  predicate InOrder(s: seq<Row>, k: nat, o: SortOrder)
    requires 0 < k < |s|
  {
    !Before(s[Parent(k)], s[k], o)
  }

  /** k, a child of j, is no worse than the parent of j. */
  predicate Bridged(s: seq<Row>, j: nat, k: nat, o: SortOrder)
    requires 0 < k < |s| && j < |s|
  {
    Parent(k) == j ==> !Before(s[Parent(j)], s[k], o)
  }

  /** Heap order holds but between i and its children, and the children of i are
      in order with the parent of i. */
  ghost predicate OrderedBut(s: seq<Row>, i: nat, o: SortOrder)
    requires i < |s|
  {
    && (forall k :: 0 < k < |s| && Parent(k) != i ==> InOrder(s, k, o))
    && (i > 0 ==> forall k :: 0 < k < |s| ==> Bridged(s, i, k, o))
  }

  /** Changing i with its worse child j moves the disorder down to j. */
  lemma SwapMovesDown(s: seq<Row>, i: nat, j: nat, o: SortOrder)
    requires 0 < j < |s| && Parent(j) == i && OrderedBut(s, i, o)
    requires forall k :: 0 < k < |s| && Parent(k) == i && k != j ==> !Before(s[j], s[k], o)
    requires !Before(s[j], s[i], o)
    ensures OrderedBut(s[i := s[j]][j := s[i]], j, o)
  {
    hide Before;
    var t := s[i := s[j]][j := s[i]];
    assert |t| == |s|;
    forall k | 0 < k < |t| ensures Parent(k) != j ==> InOrder(t, k, o) {
      SwapDownAt(s, i, j, k, o);
    }
    forall k | 0 < k < |t| ensures Bridged(t, j, k, o) {
      SwapDownAt(s, i, j, k, o);
    }
  }

  lemma SwapDownAt(s: seq<Row>, i: nat, j: nat, k: nat, o: SortOrder)
    requires 0 < j < |s| && Parent(j) == i && 0 < k < |s|
    requires Parent(k) != i ==> InOrder(s, k, o)
    requires i > 0 ==> InOrder(s, i, o) && Bridged(s, i, j, o)
    requires Parent(k) == i && k != j ==> !Before(s[j], s[k], o)
    requires !Before(s[j], s[i], o)
    ensures Parent(k) != j ==> InOrder(s[i := s[j]][j := s[i]], k, o)
    ensures Bridged(s[i := s[j]][j := s[i]], j, k, o)
  {
    hide Before;
  }

  lemma NotBeforeTransitive(a: Row, b: Row, c: Row, o: SortOrder)
    requires !Before(a, b, o) && !Before(b, c, o)
    ensures !Before(a, c, o)
  {
    var p, q, r := PosOf(a, o), PosOf(b, o), PosOf(c, o);
    hide BrowseLess;
    if BrowseLess(p, r, o) {
      LessTotal(p, q, o);
      LessTotal(q, r, o);
      if BrowseLess(q, p, o) {
        LessTransitive(q, p, r, o);
      }
      if BrowseLess(r, q, o) {
        LessTransitive(p, r, q, o);
      }
    }
  }

  /** Heap order holds but between j and its parent, and the children of j are
      in order with the parent of j. */
  ghost predicate OrderedButAbove(s: seq<Row>, j: nat, o: SortOrder)
    requires j < |s|
  {
    && (forall k :: 0 < k < |s| && k != j ==> InOrder(s, k, o))
    && (j > 0 ==> forall k :: 0 < k < |s| ==> Bridged(s, j, k, o))
  }

  /** Changing j with its parent i moves the disorder up to i. */
  lemma SwapMovesUp(s: seq<Row>, i: nat, j: nat, o: SortOrder)
    requires 0 < j < |s| && Parent(j) == i && OrderedButAbove(s, j, o)
    requires Before(s[i], s[j], o)
    ensures OrderedButAbove(s[i := s[j]][j := s[i]], i, o)
  {
    LessAsymmetric(PosOf(s[i], o), PosOf(s[j], o), o);
    var t := s[i := s[j]][j := s[i]];
    forall k | 0 < k < |t| ensures k != i ==> InOrder(t, k, o)
      ensures i > 0 ==> Bridged(t, i, k, o)
    {
      assert !Before(s[j], s[i], o);
      hide Before, BrowseLess;
      assert Bridged(s, j, k, o);
      assert k != j ==> InOrder(s, k, o);
      assert i > 0 ==> InOrder(s, i, o);
      if Parent(k) == i && k != j {
        NotBeforeTransitive(s[j], s[i], s[k], o);
        if i > 0 {
          NotBeforeTransitive(s[Parent(i)], s[i], s[k], o);
        }
      }
    }
  }

  class BrowseHeap {
    var items: seq<Row>
    const order: SortOrder

    constructor (order: SortOrder)
      ensures this.order == order && items == []
      ensures IsHeap()
    {
      this.order := order;
      items := [];
    }

    /** `Less` of the heap: the worse row comes first. */
    predicate Less(i: nat, j: nat)
      requires i < |items| && j < |items|
      reads this`items
    {
      Before(items[j], items[i], order)
    }

    /** No row is worse than its parent. */
    ghost predicate IsHeap()
      reads this`items
    {
      forall k :: 0 < k < |items| ==> InOrder(items, k, order)
    }

    lemma LessTransitiveHere(i: nat, j: nat, k: nat)
      requires i < |items| && j < |items| && k < |items|
      requires !Less(j, i) && !Less(k, j)
      ensures !Less(k, i)
    {
      NotBeforeTransitive(items[i], items[j], items[k], order);
    }

    /** The root is the worst retained row. */
    lemma {:induction false} RootIsWorst(k: nat)
      requires IsHeap() && k < |items|
      ensures !Less(k, 0)
    {
      if k == 0 {
        LessIrreflexive(PosOf(items[0], order), order);
      } else {
        RootIsWorst(Parent(k));
        assert InOrder(items, k, order);
        LessTransitiveHere(0, Parent(k), k);
      }
    }

    method Swap(i: nat, j: nat)
      requires i < |items| && j < |items|
      modifies this`items
      ensures items == old(items)[i := old(items)[j]][j := old(items)[i]]
      ensures multiset(items) == multiset(old(items))
    {
      items := items[i := items[j]][j := items[i]];
    }

    /** Sifts the last row up; everything else is already in heap order. */
    method Up(start: nat)
      requires start < |items| && OrderedButAbove(items, start, order)
      modifies this`items
      ensures IsHeap()
      ensures multiset(items) == multiset(old(items))
    {
      hide Before, OrderedButAbove;
      var j: nat := start;
      while true
        invariant j < |items| == |old(items)|
        invariant multiset(items) == multiset(old(items))
        invariant OrderedButAbove(items, j, order)
        decreases j
      {
        var i := Parent(j);
        if i == j || !Less(j, i) {
          InPlace(j);
          break;
        }
        SwapMovesUp(items, i, j, order);
        Swap(i, j);
        j := i;
      }
    }

    lemma InPlace(j: nat)
      requires j < |items| && OrderedButAbove(items, j, order)
      requires Parent(j) == j || !Less(j, Parent(j))
      ensures IsHeap()
    {
    }

    /** The two children of i: j is the worse one. */
    predicate WorseChild(i: nat, j: nat)
      reads this`items
    {
      && 0 < j < |items| && Parent(j) == i
      && forall k :: 0 < k < |items| && Parent(k) == i && k != j ==> !Less(k, j)
    }

    lemma PickWorseChild(i: nat)
      requires 2 * i + 1 < |items|
      ensures var j1, j2 := 2 * i + 1, 2 * i + 2;
              WorseChild(i, if j2 < |items| && Less(j2, j1) then j2 else j1)
    {
      var j1, j2 := 2 * i + 1, 2 * i + 2;
      if j2 < |items| && Less(j2, j1) {
        LessAsymmetric(PosOf(items[j1], order), PosOf(items[j2], order), order);
      }
    }

    /** The neighbourhood of a swap with the worse child, before it happens. */
    lemma SwapDownKeepsOrder(i: nat, j: nat)
      requires WorseChild(i, j)
      ensures Less(j, i) ==> !Less(i, j)
      ensures !Less(j, i) ==> forall k :: 0 < k < |items| && Parent(k) == i ==> !Less(k, i)
    {
      if Less(j, i) {
        LessAsymmetric(PosOf(items[i], order), PosOf(items[j], order), order);
      } else {
        forall k | 0 < k < |items| && Parent(k) == i ensures !Less(k, i) {
          if k != j {
            LessTransitiveHere(i, j, k);
          }
        }
      }
    }

    /** One turn of the loop: i is in place, or it changes with its worse child. */
    method SiftOnce(i: nat) returns (j: nat)
      requires i < |items| && OrderedBut(items, i, order)
      modifies this`items
      ensures multiset(items) == multiset(old(items)) && |items| == |old(items)|
      ensures if j == i then items == old(items) && IsHeap() else i < j < |items| && OrderedBut(items, j, order)
    {
      hide Before;
      var j1: nat := 2 * i + 1;
      if j1 >= |items| {
        return i;
      }
      j := j1;
      var j2 := j1 + 1;
      PickWorseChild(i);
      if j2 < |items| && Less(j2, j1) {
        j := j2;
      }
      SwapDownKeepsOrder(i, j);
      if !Less(j, i) {
        return i;
      }
      SwapMovesDown(items, i, j, order);
      hide OrderedBut;
      Swap(i, j);
    }

    /** Sifts the root down; everything below it is already in heap order. */
    method Down() returns (moved: bool)
      requires items != [] ==> OrderedBut(items, 0, order)
      modifies this`items
      ensures IsHeap()
      ensures multiset(items) == multiset(old(items))
    {
      var i: nat := 0;
      if items == [] {
        return false;
      }
      hide Before, OrderedBut;
      while true
        invariant i < |items| == |old(items)|
        invariant multiset(items) == multiset(old(items))
        invariant OrderedBut(items, i, order)
        decreases |items| - i
      {
        var j := SiftOnce(i);
        if j == i {
          break;
        }
        i := j;
      }
      moved := i > 0;
    }

    /** `heap.Push`. */
    method Push(x: Row)
      requires IsHeap()
      modifies this`items
      ensures IsHeap()
      ensures multiset(items) == multiset(old(items)) + multiset{x}
    {
      hide Before;
      ghost var was := items;
      items := items + [x];
      forall k | 0 < k < |was| ensures InOrder(items, k, order) {
        assert InOrder(was, k, order);
      }
      Up(|items| - 1);
    }

    /** Overwrites the root, then `heap.Fix(0)`. */
    method ReplaceRoot(x: Row)
      requires IsHeap() && items != []
      modifies this`items
      ensures IsHeap()
      ensures multiset(items) == multiset(old(items)) - multiset{old(items)[0]} + multiset{x}
    {
      hide Before;
      ghost var was := items;
      items := items[0 := x];
      forall k | 0 < k < |was| && Parent(k) != 0 ensures InOrder(items, k, order) {
        assert InOrder(was, k, order);
      }
      var moved := Down();
      if !moved {
        Up(0);
      }
    }

    /** The root is the last of the kept rows. */
    lemma RootIsLast(best: seq<Row>)
      requires IsHeap() && best != []
      requires Sorted(best, order) && multiset(items) == multiset(best)
      ensures items != [] && items[0] == best[|best| - 1]
    {
      assert |multiset(items)| == |items| && |multiset(best)| == |best|;
      var last := best[|best| - 1];
      assert last in multiset(items) && items[0] in multiset(best);
      var k :| 0 <= k < |items| && items[k] == last;
      RootIsWorst(k);
      var m :| 0 <= m < |best| && best[m] == items[0];
    }

    /** One more match: kept when there is room or when it beats the worst. */
    method Consider(x: Row, limit: nat, ghost seen: seq<Row>)
      requires limit > 0 && DistinctIds(seen + [x])
      requires IsHeap() && multiset(items) == multiset(Best(seen, limit, order))
      modifies this`items
      ensures IsHeap() && multiset(items) == multiset(Best(seen + [x], limit, order))
    {
      hide Before, Sort, Insert;
      BestGrows(seen, x, limit, order);
      ghost var best := Best(seen, limit, order);
      assert |items| == |best| by {
        assert |multiset(items)| == |items| && |multiset(best)| == |best|;
      }
      if |items| < limit {
        Push(x);
      } else {
        BestSorted(seen, x, limit, order);
        RootIsLast(best);
        var worst := items[0];
        if Before(x, worst, order) {
          ReplaceRoot(x);
        }
      }
    }
  }

  lemma BestSorted(seen: seq<Row>, x: Row, limit: nat, o: SortOrder)
    requires DistinctIds(seen + [x])
    ensures Sorted(Best(seen, limit, o), o)
  {
    PrefixDistinct(seen, x);
    SortSorts(seen, o);
  }
}
