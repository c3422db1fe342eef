/** The grandfather-father-son keep set (internal/backup/retention.go). */
module Retention {
  import opened Bytes
  import opened Order

  datatype Candidate = Candidate(ref: Text, at: int)

  /** UTC day, ISO week and month of an instant. */
  datatype Calendar = Calendar(day: int -> int, week: int -> int, month: int -> int)

  datatype Limits = Limits(daily: int, weekly: int, monthly: int)

  predicate Newer(a: Candidate, b: Candidate) {
    a.at > b.at || (a.at == b.at && TextLess(b.ref, a.ref))
  }

  function KeysAbove(all: set<Candidate>, key: int -> int, c: Candidate): set<int> {
    set d | d in all && Newer(d, c) :: key(d.at)
  }

  /** c heads its bucket, and fewer than `limit` buckets have anything newer. */
  ghost predicate KeptBy(all: set<Candidate>, key: int -> int, limit: int, c: Candidate) {
    && c in all
    && (forall d :: d in all && Newer(d, c) ==> key(d.at) != key(c.at))
    && |KeysAbove(all, key, c)| < limit
  }

  ghost predicate Kept(all: set<Candidate>, cal: Calendar, l: Limits, c: Candidate) {
    KeptBy(all, cal.day, l.daily, c) || KeptBy(all, cal.week, l.weekly, c) || KeptBy(all, cal.month, l.monthly, c)
  }

  function Max(a: int, b: int): int { if a >= b then a else b }

  /** Some level is enabled, so that the newest backup is kept anyway. */
  predicate Enabled(l: Limits) { l.daily > 0 || l.weekly > 0 || l.monthly > 0 }

  /** What a level may be set to when it was at `limit`. */
  function Ceiling(limit: int, before: Limits): int { Max(limit, if Enabled(before) then 1 else 0) }

  predicate NoHigher(before: Limits, after: Limits) {
    && after.daily <= Ceiling(before.daily, before)
    && after.weekly <= Ceiling(before.weekly, before)
    && after.monthly <= Ceiling(before.monthly, before)
  }

  // ----- what is kept, in terms of times and buckets -----

  /** Later instants are in no earlier bucket. */
  ghost predicate Monotone(key: int -> int) { forall a, b :: a <= b ==> key(a) <= key(b) }

  /** The last backup of its bucket; of simultaneous ones, the greatest name. */
  ghost predicate LastOfBucket(all: set<Candidate>, key: int -> int, c: Candidate) {
    c in all && forall d :: d in all && key(d.at) == key(c.at) ==> d.at < c.at || (d.at == c.at && !TextLess(c.ref, d.ref))
  }

  /** The buckets after this one that hold a backup. */
  function BucketsAfter(all: set<Candidate>, key: int -> int, bucket: int): set<int> {
    set d | d in all && key(d.at) > bucket :: key(d.at)
  }

  /** A level keeps exactly the last backup of each of its `limit` most recent
      buckets that hold any. */
  lemma KeptByMeans(all: set<Candidate>, key: int -> int, limit: int, c: Candidate)
    requires Monotone(key)
    ensures KeptBy(all, key, limit, c) <==> LastOfBucket(all, key, c) && |BucketsAfter(all, key, key(c.at))| < limit
  {
    assert Newer(c, c) ==> false by { NewerIrreflexive(c); }
    forall d | d in all ensures key(d.at) > key(c.at) ==> d.at > c.at {}
    forall d | d in all ensures d.at > c.at ==> key(d.at) >= key(c.at) {}
    if forall d :: d in all && Newer(d, c) ==> key(d.at) != key(c.at) {
      assert KeysAbove(all, key, c) == BucketsAfter(all, key, key(c.at));
    }
  }

  // ----- what later decisions can change -----

  lemma FewerKeys(some: set<Candidate>, all: set<Candidate>, key: int -> int, c: Candidate)
    requires some <= all
    ensures KeysAbove(some, key, c) <= KeysAbove(all, key, c)
    ensures |KeysAbove(some, key, c)| <= |KeysAbove(all, key, c)|
  {
    SubsetSize(KeysAbove(some, key, c), KeysAbove(all, key, c));
  }

  lemma SubsetSize(a: set<int>, b: set<int>)
    requires a <= b
    ensures |a| <= |b|
  {
    assert b == a + (b - a);
  }

  lemma NewestIsKept(all: set<Candidate>, cal: Calendar, l: Limits, c: Candidate)
    requires c in all && forall d :: d in all ==> !Newer(d, c)
    requires Enabled(l)
    ensures Kept(all, cal, l, c)
  {
    assert KeysAbove(all, cal.day, c) == {} == KeysAbove(all, cal.week, c) == KeysAbove(all, cal.month, c);
  }

  /** A backup left out is never asked for again: not when more backups appear,
      older or newer, and not when limits change to no higher ones. */
  lemma NeverKeptAgain(some: set<Candidate>, all: set<Candidate>, cal: Calendar, before: Limits, after: Limits, c: Candidate)
    requires some <= all && NoHigher(before, after)
    requires c in some && !Kept(some, cal, before, c)
    ensures !Kept(all, cal, after, c)
  {
    LevelNeverKeeps(some, all, cal, before, cal.day, before.daily, after.daily, c);
    LevelNeverKeeps(some, all, cal, before, cal.week, before.weekly, after.weekly, c);
    LevelNeverKeeps(some, all, cal, before, cal.month, before.monthly, after.monthly, c);
  }

  lemma LevelNeverKeeps(some: set<Candidate>, all: set<Candidate>, cal: Calendar, before: Limits,
                        key: int -> int, limit: int, raised: int, c: Candidate)
    requires some <= all && raised <= Ceiling(limit, before)
    requires c in some && !Kept(some, cal, before, c) && !KeptBy(some, key, limit, c)
    ensures !KeptBy(all, key, raised, c)
  {
    FewerKeys(some, all, key, c);
    if d :| d in some && Newer(d, c) {
      assert key(d.at) in KeysAbove(all, key, c);
    } else if Enabled(before) {
      NewestIsKept(some, cal, before, c);
    }
  }

  /** Whatever the calendar and the backups, one that was left out stays out. */
  ghost predicate NeverAsksAgain(before: Limits, after: Limits) {
    forall cal, some, all, c :: some <= all && c in some && !Kept(some, cal, before, c) ==> !Kept(all, cal, after, c)
  }

  /** Exactly: no level rises above what it was, but a disabled one may be set to
      one while another was enabled. */
  lemma NeverAsksAgainIff(before: Limits, after: Limits)
    ensures NeverAsksAgain(before, after) <==> NoHigher(before, after)
  {
    if NoHigher(before, after) {
      forall cal, some, all, c | some <= all && c in some && !Kept(some, cal, before, c) ensures !Kept(all, cal, after, c) {
        NeverKeptAgain(some, all, cal, before, after, c);
      }
    } else {
      var own, one: int -> int := at => at, at => 0;
      var cal := if after.daily > Ceiling(before.daily, before) then Calendar(own, one, one)
                 else if after.weekly > Ceiling(before.weekly, before) then Calendar(one, own, one)
                 else Calendar(one, one, own);
      var limit := if after.daily > Ceiling(before.daily, before) then before.daily
                   else if after.weekly > Ceiling(before.weekly, before) then before.weekly else before.monthly;
      var n := Max(0, Ceiling(limit, before));
      var all, c := Chain(n), Candidate([], 0);
      ChainKeys(n, own);
      if n > 0 {
        assert Candidate([], n) in all && Newer(Candidate([], n), c);
      }
      assert !Kept(all, cal, before, c) && Kept(all, cal, after, c);
    }
  }

  /** The oldest of n + 1 backups, one a bucket, by their own times. */
  function Chain(n: nat): (r: set<Candidate>)
    ensures forall c :: c in r <==> c.ref == [] && 0 <= c.at <= n
  {
    if n == 0 then {Candidate([], 0)} else Chain(n - 1) + {Candidate([], n)}
  }

  lemma {:induction false} ChainKeys(n: nat, own: int -> int)
    requires forall at :: own(at) == at
    ensures |KeysAbove(Chain(n), own, Candidate([], 0))| == n
    ensures forall k :: k in KeysAbove(Chain(n), own, Candidate([], 0)) ==> 0 < k <= n
  {
    var c := Candidate([], 0);
    var keys := KeysAbove(Chain(n), own, c);
    if n == 0 {
      NewerIrreflexive(c);
      assert keys == {};
    } else {
      ChainKeys(n - 1, own);
      assert Candidate([], n) in Chain(n);
      assert keys == KeysAbove(Chain(n - 1), own, c) + {n};
    }
  }

  /** The simplest run of it: one daily backup kept, then two asked for. */
  lemma RaisedLimitAsksAgain(cal: Calendar, a: Candidate, b: Candidate)
    requires Newer(a, b) && cal.day(a.at) != cal.day(b.at)
    ensures Kept({a, b}, cal, Limits(2, 0, 0), b)
    ensures !Kept({a, b}, cal, Limits(1, 0, 0), b)
  {
    NewerIrreflexive(b);
    assert KeysAbove({a, b}, cal.day, b) == {cal.day(a.at)};
  }

  lemma NewerIrreflexive(c: Candidate)
    ensures !Newer(c, c)
  {
    TextLessIrreflexive(c.ref);
  }

  /** Keeping is idempotent. */
  lemma KeptStaysKept(all: set<Candidate>, kept: set<Candidate>, cal: Calendar, l: Limits, c: Candidate)
    requires kept <= all && c in kept && Kept(all, cal, l, c)
    ensures Kept(kept, cal, l, c)
  {
    if !Kept(kept, cal, l, c) {
      NeverKeptAgain(kept, all, cal, l, l, c);
    }
  }

  // ----- the loops -----

  ghost predicate NewestFirst(s: seq<Candidate>) {
    forall i, j :: 0 <= i < j < |s| ==> s[i] == s[j] || Newer(s[i], s[j])
  }

  ghost predicate SameMembers(a: seq<Candidate>, b: seq<Candidate>) {
    forall c :: c in a <==> c in b
  }

  lemma NewerTotal(a: Candidate, b: Candidate)
    ensures a == b || Newer(a, b) || Newer(b, a)
  {
    TextLessTotal(a.ref, b.ref);
  }

  lemma NewerTransitive(a: Candidate, b: Candidate, c: Candidate)
    requires Newer(a, b) && Newer(b, c)
    ensures Newer(a, c)
  {
    if a.at == b.at == c.at {
      TextLessTransitive(c.ref, b.ref, a.ref);
    }
  }

  /** The sort of a copied slice, newest first. */
  method SortNewest(candidates: seq<Candidate>) returns (sorted: seq<Candidate>)
    ensures NewestFirst(sorted) && SameMembers(sorted, candidates)
  {
    sorted := [];
    for i := 0 to |candidates|
      invariant NewestFirst(sorted) && SameMembers(sorted, candidates[..i])
    {
      sorted := InsertNewest(sorted, candidates[i]);
      assert candidates[..i + 1] == candidates[..i] + [candidates[i]];
    }
    assert candidates[..|candidates|] == candidates;
  }

  method InsertNewest(s: seq<Candidate>, c: Candidate) returns (r: seq<Candidate>)
    requires NewestFirst(s)
    ensures NewestFirst(r) && forall d :: d in r <==> d in s || d == c
  {
    var k := 0;
    while k < |s| && Newer(s[k], c)
      invariant 0 <= k <= |s|
      invariant forall j :: 0 <= j < k ==> Newer(s[j], c)
    {
      k := k + 1;
    }
    r := s[..k] + [c] + s[k..];
    forall j | k <= j < |s| ensures s[j] == c || Newer(c, s[j]) {
      NewerTotal(s[k], c);
      if s[j] != s[k] && Newer(c, s[k]) {
        NewerTransitive(c, s[k], s[j]);
      }
    }
    forall d ensures d in r <==> d in s || d == c {
      assert s == s[..k] + s[k..];
    }
  }

  function Max0(n: int): nat { if n > 0 then n else 0 }

  /** What one level keeps. */
  ghost function KeptRefs(all: set<Candidate>, key: int -> int, limit: int): set<Text> {
    set c | c in all && KeptBy(all, key, limit, c) :: c.ref
  }

  function Members(s: seq<Candidate>): set<Candidate> { set c | c in s }

  ghost function RefsUpTo(sorted: seq<Candidate>, key: int -> int, limit: int, n: nat): set<Text>
    requires n <= |sorted|
  {
    set j | 0 <= j < n && KeptBy(Members(sorted), key, limit, sorted[j]) :: sorted[j].ref
  }

  ghost function SeenUpTo(sorted: seq<Candidate>, key: int -> int, n: nat): set<int>
    requires n <= |sorted|
  {
    set j | 0 <= j < n :: key(sorted[j].at)
  }

  /** One level of the loop: `keep` grows by the heads of the most recent
      `limit` buckets. */
  method KeepLevel(sorted: seq<Candidate>, key: int -> int, limit: int, keep0: set<Text>) returns (keep: set<Text>)
    requires NewestFirst(sorted)
    ensures forall x :: x in keep <==> x in keep0 || x in KeptRefs(Members(sorted), key, limit)
    ensures |keep| <= |keep0| + Max0(limit)
  {
    keep := keep0;
    if limit <= 0 {
      return;
    }
    AllRefs(sorted, key, limit);
    assert SeenUpTo(sorted, key, 0) == {} && RefsUpTo(sorted, key, limit, 0) == {};
    hide *;
    var seen: set<int> := {};
    var i := 0;
    while i < |sorted|
      invariant 0 <= i <= |sorted|
      invariant seen == SeenUpTo(sorted, key, i) && |seen| < limit
      invariant forall x :: x in keep <==> x in keep0 || x in RefsUpTo(sorted, key, limit, i)
      invariant |keep| <= |keep0| + |seen|
    {
      SeenNext(sorted, key, i);
      if key(sorted[i].at) !in seen {
        HeadKept(sorted, key, limit, i);
        seen := seen + {key(sorted[i].at)};
        keep := Added(keep, sorted[i].ref);
        if |seen| == limit {
          LevelFull(sorted, key, limit, i + 1);
          break;
        }
      } else {
        RepeatNotKept(sorted, key, limit, i);
      }
      i := i + 1;
    }
  }

  function Added(s: set<Text>, x: Text): (r: set<Text>)
    ensures |r| <= |s| + 1 && forall y :: y in r <==> y in s || y == x
  {
    s + {x}
  }

  lemma SeenNext(sorted: seq<Candidate>, key: int -> int, i: nat)
    requires i < |sorted|
    ensures SeenUpTo(sorted, key, i + 1) == SeenUpTo(sorted, key, i) + {key(sorted[i].at)}
  {
  }

  lemma AllRefs(sorted: seq<Candidate>, key: int -> int, limit: int)
    ensures RefsUpTo(sorted, key, limit, |sorted|) == KeptRefs(Members(sorted), key, limit)
  {
    hide KeptBy;
  }

  /** A candidate whose bucket is new: its newer ones are those before it. */
  lemma KeysBefore(sorted: seq<Candidate>, key: int -> int, i: nat)
    requires NewestFirst(sorted) && i < |sorted|
    requires key(sorted[i].at) !in SeenUpTo(sorted, key, i)
    ensures KeysAbove(Members(sorted), key, sorted[i]) == SeenUpTo(sorted, key, i)
  {
    var c := sorted[i];
    forall j | 0 <= j < |sorted| ensures Newer(sorted[j], c) <==> j < i {
      if j < i {
        assert key(sorted[j].at) != key(c.at);
      } else if i < j && sorted[j] != c && Newer(sorted[j], c) {
        NewerTransitive(c, sorted[j], c);
        NewerIrreflexive(c);
      } else {
        NewerIrreflexive(c);
      }
    }
    var above := KeysAbove(Members(sorted), key, c);
    forall k ensures k in above <==> k in SeenUpTo(sorted, key, i) {
      if k in SeenUpTo(sorted, key, i) {
        var j :| 0 <= j < i && key(sorted[j].at) == k;
        assert sorted[j] in Members(sorted);
      }
      if k in above {
        var d :| d in Members(sorted) && Newer(d, c) && key(d.at) == k;
        var j :| 0 <= j < |sorted| && sorted[j] == d;
      }
    }
  }

  lemma HeadKept(sorted: seq<Candidate>, key: int -> int, limit: int, i: nat)
    requires NewestFirst(sorted) && i < |sorted|
    requires key(sorted[i].at) !in SeenUpTo(sorted, key, i) && |SeenUpTo(sorted, key, i)| < limit
    ensures forall x :: x in RefsUpTo(sorted, key, limit, i + 1) <==> x in RefsUpTo(sorted, key, limit, i) || x == sorted[i].ref
  {
    KeysBefore(sorted, key, i);
    assert KeptBy(Members(sorted), key, limit, sorted[i]) by {
      forall d | d in Members(sorted) && Newer(d, sorted[i]) ensures key(d.at) != key(sorted[i].at) {
        assert key(d.at) in KeysAbove(Members(sorted), key, sorted[i]);
      }
    }
    hide KeptBy;
  }

  lemma RefsNext(sorted: seq<Candidate>, key: int -> int, limit: int, i: nat)
    requires i < |sorted|
    ensures RefsUpTo(sorted, key, limit, i + 1)
            == RefsUpTo(sorted, key, limit, i) + (if KeptBy(Members(sorted), key, limit, sorted[i]) then {sorted[i].ref} else {})
  {
    hide KeptBy;
  }

  lemma RefsHas(sorted: seq<Candidate>, key: int -> int, limit: int, i: nat, j: nat)
    requires j < i <= |sorted| && KeptBy(Members(sorted), key, limit, sorted[j])
    ensures sorted[j].ref in RefsUpTo(sorted, key, limit, i)
  {
    hide KeptBy;
  }

  /** A candidate whose bucket was seen is not kept, unless listed before. */
  lemma RepeatNotKept(sorted: seq<Candidate>, key: int -> int, limit: int, i: nat)
    requires NewestFirst(sorted) && i < |sorted|
    requires key(sorted[i].at) in SeenUpTo(sorted, key, i)
    ensures RefsUpTo(sorted, key, limit, i + 1) == RefsUpTo(sorted, key, limit, i)
  {
    var j :| 0 <= j < i && key(sorted[j].at) == key(sorted[i].at);
    assert sorted[j] in Members(sorted);
    assert KeptBy(Members(sorted), key, limit, sorted[i]) ==> sorted[j] == sorted[i];
    hide *;
    RefsNext(sorted, key, limit, i);
    if KeptBy(Members(sorted), key, limit, sorted[i]) {
      RefsHas(sorted, key, limit, i, j);
    }
  }

  /** Once `limit` buckets are seen nothing further is kept. */
  lemma LevelFull(sorted: seq<Candidate>, key: int -> int, limit: int, n: nat)
    requires NewestFirst(sorted) && n <= |sorted| && |SeenUpTo(sorted, key, n)| == limit
    ensures RefsUpTo(sorted, key, limit, |sorted|) == RefsUpTo(sorted, key, limit, n)
  {
    var all := Members(sorted);
    forall i | n <= i < |sorted| && KeptBy(all, key, limit, sorted[i])
      ensures exists j :: 0 <= j < n && sorted[j] == sorted[i]
    {
      var above := KeysAbove(all, key, sorted[i]);
      if SeenUpTo(sorted, key, n) <= above {
        SubsetSize(SeenUpTo(sorted, key, n), above);
        assert false;
      }
      var k :| k in SeenUpTo(sorted, key, n) && k !in above;
      var j :| 0 <= j < n && key(sorted[j].at) == k;
      assert sorted[j] in all;
    }
    hide KeptBy;
  }

  /** `RetentionKeepSet`. */
  method KeepSet(candidates: seq<Candidate>, cal: Calendar, l: Limits) returns (keep: set<Text>)
    ensures forall x :: x in keep <==> exists c :: c in candidates && Kept(Members(candidates), cal, l, c) && c.ref == x
    ensures |keep| <= Max0(l.daily) + Max0(l.weekly) + Max0(l.monthly)
  {
    keep := {};
    if candidates == [] {
      return;
    }
    var sorted := SortNewest(candidates);
    assert Members(sorted) == Members(candidates);
    KeptRefsAre(candidates, cal, l);
    hide *;
    keep := KeepLevel(sorted, cal.day, l.daily, keep);
    keep := KeepLevel(sorted, cal.week, l.weekly, keep);
    keep := KeepLevel(sorted, cal.month, l.monthly, keep);
  }

  lemma KeptRefsAre(candidates: seq<Candidate>, cal: Calendar, l: Limits)
    ensures var all := Members(candidates);
            forall x :: (exists c :: c in candidates && Kept(all, cal, l, c) && c.ref == x) <==>
              (|| x in KeptRefs(all, cal.day, l.daily) || x in KeptRefs(all, cal.week, l.weekly)
               || x in KeptRefs(all, cal.month, l.monthly))
  {
    hide KeptBy;
  }
}
