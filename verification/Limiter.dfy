/** Sliding-window admission: the persisted login limiter
    (internal/auth/limiter.go) and the in-memory one with its in-place
    compaction (internal/httpapi/csrf.go). */
module Limiter {
  import opened Bytes

  // ----- counting in windows -----

  /** How many instants lie in (lo, hi]. */
  function Count(times: seq<int>, lo: int, hi: int): nat {
    if times == [] then 0
    else Count(times[..|times| - 1], lo, hi) + (if lo < times[|times| - 1] <= hi then 1 else 0)
  }

  function Window(times: seq<int>, lo: int, span: int): nat { Count(times, lo, lo + span) }

  /** Every window of this span, wherever it begins, holds at most `limit`
      instants. */
  ghost predicate Bounded(times: seq<int>, span: int, limit: int) {
    forall lo :: Window(times, lo, span) <= limit
  }

  ghost predicate UpTo(times: seq<int>, now: int) { forall i :: 0 <= i < |times| ==> times[i] <= now }

  /** The positions whose instants lie in (lo, hi]. */
  function Inside(times: seq<int>, lo: int, hi: int): set<int> {
    set i | 0 <= i < |times| && lo < times[i] <= hi
  }

  /** The count counts them. */
  lemma {:induction false} CountsInside(times: seq<int>, lo: int, hi: int)
    ensures Count(times, lo, hi) == |Inside(times, lo, hi)|
  {
    if times == [] {
      assert Inside(times, lo, hi) == {};
    } else {
      var n := |times| - 1;
      CountsInside(times[..n], lo, hi);
      assert Inside(times, lo, hi) == Inside(times[..n], lo, hi) + (if lo < times[n] <= hi then {n} else {});
    }
  }

  /** So a bound on the windows bounds any instants that lie within one span. */
  lemma BoundedMeans(times: seq<int>, span: int, limit: int, picked: set<int>, lo: int)
    requires Bounded(times, span, limit)
    requires forall i :: i in picked ==> 0 <= i < |times| && lo < times[i] <= lo + span
    ensures |picked| <= limit
  {
    assert Window(times, lo, span) <= limit;
    CountsInside(times, lo, lo + span);
    var inside := Inside(times, lo, lo + span);
    assert inside == picked + (inside - picked);
  }

  lemma {:induction false} CountMonotone(times: seq<int>, lo: int, hi: int, lo2: int, hi2: int)
    requires lo2 <= lo && hi <= hi2
    ensures Count(times, lo, hi) <= Count(times, lo2, hi2)
  {
    if times != [] {
      CountMonotone(times[..|times| - 1], lo, hi, lo2, hi2);
    }
  }

  lemma CountSnoc(times: seq<int>, t: int, lo: int, hi: int)
    ensures Count(times + [t], lo, hi) == Count(times, lo, hi) + (if lo < t <= hi then 1 else 0)
  {
    assert (times + [t])[..|times|] == times;
  }

  /** Admitting in order, when the window that ends now has room, keeps every
      window within the limit. */
  lemma AdmitKeepsBound(times: seq<int>, now: int, span: int, limit: int)
    requires span > 0 && UpTo(times, now) && Bounded(times, span, limit)
    requires Count(times, now - span, now) < limit
    ensures Bounded(times + [now], span, limit)
  {
    forall lo ensures Window(times + [now], lo, span) <= limit {
      assert Window(times, lo, span) <= limit;
      CountSnoc(times, now, lo, lo + span);
      if lo < now <= lo + span {
        CountUpTo(times, now, lo, lo + span);
        CountMonotone(times, lo, now, now - span, now);
      }
    }
  }

  lemma {:induction false} CountUpTo(times: seq<int>, now: int, lo: int, hi: int)
    requires UpTo(times, now) && now <= hi
    ensures Count(times, lo, hi) == Count(times, lo, now)
  {
    if times != [] {
      CountUpTo(times[..|times| - 1], now, lo, hi);
    }
  }

  /** The instants after a cutoff. */
  function Since(times: seq<int>, cutoff: int): (r: seq<int>)
    ensures forall t :: t in r <==> t in times && t > cutoff
  {
    if times == [] then []
    else Since(times[..|times| - 1], cutoff) + (if times[|times| - 1] > cutoff then [times[|times| - 1]] else [])
  }

  lemma SinceSnoc(times: seq<int>, t: int, cutoff: int)
    ensures Since(times + [t], cutoff) == if t > cutoff then Since(times, cutoff) + [t] else Since(times, cutoff)
  {
    assert (times + [t])[..|times|] == times;
  }

  /** What lies in the window is what is left after its cutoff. */
  lemma {:induction false} CountIsSince(times: seq<int>, cutoff: int, now: int)
    requires UpTo(times, now)
    ensures Count(times, cutoff, now) == |Since(times, cutoff)|
  {
    if times != [] {
      CountIsSince(times[..|times| - 1], cutoff, now);
    }
  }

  lemma {:induction false} SinceTwice(times: seq<int>, earlier: int, later: int)
    requires earlier <= later
    ensures Since(Since(times, earlier), later) == Since(times, later)
  {
    if times != [] {
      var rest, t := times[..|times| - 1], times[|times| - 1];
      SinceTwice(rest, earlier, later);
      if t > earlier {
        SinceSnoc(Since(rest, earlier), t, later);
      } else {
        assert Since(times, earlier) == Since(rest, earlier);
      }
    }
  }

  lemma SinceAgrees(a: seq<int>, b: seq<int>, earlier: int, later: int)
    requires earlier <= later && Since(a, earlier) == Since(b, earlier)
    ensures Since(a, later) == Since(b, later)
  {
    SinceTwice(a, earlier, later);
    SinceTwice(b, earlier, later);
  }

  /** A compacted and extended list agrees with everything admitted. */
  lemma Admitted(times: seq<int>, now: int, cutoff: int)
    requires cutoff < now
    ensures Since(Since(times, cutoff) + [now], cutoff) == Since(times + [now], cutoff)
  {
    hide Since;
    SinceTwice(times, cutoff, cutoff);
    SinceSnoc(Since(times, cutoff), now, cutoff);
    SinceSnoc(times, now, cutoff);
  }

  function Max0(n: int): nat { if n > 0 then n else 0 }

  // ----- the in-memory limiter -----

  /** The hit list of one key: a slice of an array. `admitted` is every hit ever
      let through; the list holds those of the latest window. */
  class HitList {
    var data: array<int>
    var len: nat
    const limit: int
    const window: int
    ghost var admitted: seq<int>
    ghost var clock: int

    ghost predicate Valid()
      reads this, data
    {
      && len <= data.Length && window > 0
      && UpTo(admitted, clock)
      && Since(data[..len], clock - window) == Since(admitted, clock - window)
      && Bounded(admitted, window, Max0(limit))
    }

    constructor (limit: int, window: int)
      requires window > 0
      ensures Valid() && fresh(data) && admitted == [] && this.limit == limit && this.window == window
    {
      this.limit, this.window := limit, window;
      data, len := new int[0], 0;
      admitted, clock := [], 0;
    }

    /** The compaction loop: keeps the recent hits, in place. */
    method Compact(now: int) returns (n: nat)
      requires len <= data.Length
      modifies data
      ensures n <= len && data[..n] == Since(old(data[..len]), now - window)
    {
      n := 0;
      ghost var was := data[..len];
      assert Since(was[..0], now - window) == [];
      hide Since;
      for i := 0 to len
        invariant n <= i
        invariant data[..n] == Since(was[..i], now - window)
        invariant forall j :: i <= j < len ==> data[j] == was[j]
      {
        var t := data[i];
        assert was[..i + 1] == was[..i] + [t];
        SinceSnoc(was[..i], t, now - window);
        ghost var kept := data[..n];
        if now - t < window {
          data[n] := t;
          n := n + 1;
          assert data[..n] == kept + [t];
        }
      }
      assert was[..len] == was;
    }

    /** `Allow`: denied exactly when the window that ends now is already full. */
    method Allow(now: int) returns (ok: bool)
      requires Valid() && clock <= now
      modifies this, data
      ensures Valid() && clock == now && (data == old(data) || fresh(data))
      ensures ok <==> Count(old(admitted), now - window, now) < limit
      ensures admitted == if ok then old(admitted) + [now] else old(admitted)
    {
      hide Since, Count, Bounded;
      ghost var recent := Since(admitted, now - window);
      SinceAgrees(data[..len], admitted, clock - window, now - window);
      CountIsSince(admitted, now - window, now);
      var n := Compact(now);
      assert data[..n] == recent;
      clock := now;
      if n >= limit {
        len := n;
        SinceTwice(admitted, now - window, now - window);
        return false;
      }
      Append(n, now);
      Admitted(admitted, now, now - window);
      AdmitKeepsBound(admitted, now, window, limit);
      admitted := admitted + [now];
      return true;
    }

    /** Go's `append` to the first n hits. */
    method Append(n: nat, now: int)
      requires n <= data.Length
      modifies this`data, this`len, data
      ensures len == n + 1 <= data.Length && data[..len] == old(data[..n]) + [now]
      ensures data == old(data) || fresh(data)
    {
      if n == data.Length {
        var grown := new int[2 * n + 1];
        for i := 0 to n
          modifies grown
          invariant grown[..i] == data[..i]
        {
          grown[i] := data[i];
        }
        data := grown;
      }
      data[n] := now;
      len := n + 1;
    }
  }

  // ----- the persisted limiter -----

  const MINUTE := 60_000_000_000

  /** One row of `login_attempts`: digests of the user name and the source. */
  datatype Attempt = Attempt(user: Text, source: Text, at: int)

  datatype Limits = Limits(username: int, source: int, global: int) {
    function Defaults(): (r: Limits)
      ensures r.username > 0 && r.source > 0 && r.global > 0
    {
      Limits(if username <= 0 then 5 else username, if source <= 0 then 20 else source, if global <= 0 then 100 else global)
    }
  }

  /** A limit that is not set is five a minute for a user, twenty for a source
      and a hundred in all. */
  lemma DefaultsMean(l: Limits)
    ensures Limits(0, 0, 0).Defaults() == Limits(5, 20, 100)
    ensures l.username > 0 && l.source > 0 && l.global > 0 ==> l.Defaults() == l
  {
  }

  /** The times of the attempts of one kind. */
  function Times(s: seq<Attempt>, p: Attempt -> bool): seq<int> {
    if s == [] then []
    else Times(s[..|s| - 1], p) + (if p(s[|s| - 1]) then [s[|s| - 1].at] else [])
  }

  lemma TimesSnoc(s: seq<Attempt>, a: Attempt, p: Attempt -> bool)
    ensures Times(s + [a], p) == if p(a) then Times(s, p) + [a.at] else Times(s, p)
  {
    assert (s + [a])[..|s|] == s;
  }

  lemma {:induction false} TimesUpTo(s: seq<Attempt>, p: Attempt -> bool, now: int)
    requires forall a :: a in s ==> a.at <= now
    ensures UpTo(Times(s, p), now)
  {
    if s != [] {
      TimesUpTo(s[..|s| - 1], p, now);
    }
  }

  function OfUser(user: Text): Attempt -> bool { (a: Attempt) => a.user == user }
  function OfSource(source: Text): Attempt -> bool { (a: Attempt) => a.source == source }
  function Any(): Attempt -> bool { (a: Attempt) => true }

  function Recent(s: seq<Attempt>, cutoff: int): seq<Attempt> {
    if s == [] then []
    else Recent(s[..|s| - 1], cutoff) + (if s[|s| - 1].at > cutoff then [s[|s| - 1]] else [])
  }

  lemma {:induction false} TimesOfRecent(s: seq<Attempt>, cutoff: int, p: Attempt -> bool)
    ensures Times(Recent(s, cutoff), p) == Since(Times(s, p), cutoff)
  {
    if s != [] {
      var rest, a := s[..|s| - 1], s[|s| - 1];
      TimesOfRecent(rest, cutoff, p);
      if a.at > cutoff {
        TimesSnoc(Recent(rest, cutoff), a, p);
      } else {
        assert Recent(s, cutoff) == Recent(rest, cutoff);
      }
      if p(a) {
        SinceSnoc(Times(rest, p), a.at, cutoff);
      } else {
        assert Times(s, p) == Times(rest, p);
      }
    }
  }

  /** Rows agree with what was admitted on everything after the cutoff. */
  ghost predicate Agree(rows: seq<Attempt>, admitted: seq<Attempt>, cutoff: int) {
    forall p :: Since(Times(rows, p), cutoff) == Since(Times(admitted, p), cutoff)
  }

  /** Every minute holds at most the limits per user, per source and in all. */
  ghost predicate WithinLimits(admitted: seq<Attempt>, l: Limits) {
    && (forall user :: Bounded(Times(admitted, OfUser(user)), MINUTE, l.username))
    && (forall source :: Bounded(Times(admitted, OfSource(source)), MINUTE, l.source))
    && Bounded(Times(admitted, Any()), MINUTE, l.global)
  }

  /** The attempts of a kind that lie in (lo, hi], by position. */
  function OfKind(s: seq<Attempt>, p: Attempt -> bool, lo: int, hi: int): set<int> {
    set i | 0 <= i < |s| && p(s[i]) && lo < s[i].at <= hi
  }

  lemma OfKindNext(s: seq<Attempt>, a: Attempt, p: Attempt -> bool, lo: int, hi: int)
    ensures |OfKind(s + [a], p, lo, hi)| == |OfKind(s, p, lo, hi)| + (if p(a) && lo < a.at <= hi then 1 else 0)
  {
    assert OfKind(s + [a], p, lo, hi) == OfKind(s, p, lo, hi) + (if p(a) && lo < a.at <= hi then {|s|} else {});
  }

  lemma {:induction false} CountsKind(s: seq<Attempt>, p: Attempt -> bool, lo: int, hi: int)
    ensures Count(Times(s, p), lo, hi) == |OfKind(s, p, lo, hi)|
  {
    if s == [] {
      assert OfKind(s, p, lo, hi) == {};
    } else {
      var rest, a := s[..|s| - 1], s[|s| - 1];
      assert s == rest + [a];
      CountsKind(rest, p, lo, hi);
      OfKindNext(rest, a, p, lo, hi);
      TimesSnoc(rest, a, p);
      CountSnoc(Times(rest, p), a.at, lo, hi);
      hide OfKind, Times, Count;
    }
  }

  /** In plain terms: of the attempts let through within any one minute, no more
      than the limits are of one user, from one source, or there at all. */
  lemma WithinLimitsMeans(admitted: seq<Attempt>, l: Limits, picked: set<int>, lo: int, user: Text, source: Text)
    requires WithinLimits(admitted, l)
    requires forall i :: i in picked ==> 0 <= i < |admitted| && lo < admitted[i].at <= lo + 60 * 1_000_000_000
    ensures |picked| <= l.global
    ensures (forall i :: i in picked ==> admitted[i].user == user) ==> |picked| <= l.username
    ensures (forall i :: i in picked ==> admitted[i].source == source) ==> |picked| <= l.source
  {
    PickedFew(admitted, Any(), picked, lo, l.global);
    if forall i :: i in picked ==> admitted[i].user == user {
      PickedFew(admitted, OfUser(user), picked, lo, l.username);
    }
    if forall i :: i in picked ==> admitted[i].source == source {
      PickedFew(admitted, OfSource(source), picked, lo, l.source);
    }
  }

  lemma PickedFew(admitted: seq<Attempt>, p: Attempt -> bool, picked: set<int>, lo: int, limit: int)
    requires Bounded(Times(admitted, p), MINUTE, limit)
    requires forall i :: i in picked ==> 0 <= i < |admitted| && p(admitted[i]) && lo < admitted[i].at <= lo + MINUTE
    ensures |picked| <= limit
  {
    assert Window(Times(admitted, p), lo, MINUTE) <= limit;
    CountsKind(admitted, p, lo, lo + MINUTE);
    var all := OfKind(admitted, p, lo, lo + MINUTE);
    assert all == picked + (all - picked);
  }

  class LoginLimiter {
    const limits: Limits
    var rows: seq<Attempt>
    /** Every attempt ever admitted, and the last clock reading. */
    ghost var admitted: seq<Attempt>
    ghost var clock: int

    /** Rows forget nothing that a window from now on can reach, and every
        minute holds at most the limits per user, per source and in all. */
    ghost predicate Valid()
      reads this
    {
      && limits.username > 0 && limits.source > 0 && limits.global > 0
      && (forall a :: a in admitted ==> a.at <= clock)
      && Agree(rows, admitted, clock - MINUTE)
      && WithinLimits(admitted, limits)
    }

    constructor (limits: Limits)
      ensures Valid() && admitted == [] && this.limits == limits.Defaults()
    {
      this.limits := limits.Defaults();
      rows, admitted, clock := [], [], 0;
    }

    /** How many admitted attempts of a kind the minute up to now holds. */
    ghost function InMinute(p: Attempt -> bool, now: int): nat
      reads this
    {
      Count(Times(admitted, p), now - MINUTE, now)
    }

    /** `CleanupLoginAttempts`, with a cutoff that no window reaches any more: no
        later answer changes. */
    method CleanupLoginAttempts(cutoff: int) returns (removed: nat)
      requires Valid() && cutoff <= clock - MINUTE
      modifies this`rows
      ensures Valid() && rows == Recent(old(rows), cutoff) && removed == |old(rows)| - |rows|
    {
      hide Since, Times, Count, Bounded, WithinLimits;
      var was := rows;
      RecentAgrees(rows, cutoff, clock - MINUTE);
      RecentFewer(rows, cutoff);
      rows := DeleteOld(rows, cutoff);
      removed := |was| - |rows|;
    }

    /** `reserveAttempt`: admitted exactly when no limit is reached yet, whatever
        rows were deleted before. A denied attempt leaves no trace. */
    method ReserveAttempt(user: Text, source: Text, now: int) returns (ok: bool)
      requires Valid() && clock <= now
      modifies this
      ensures Valid() && clock == now
      ensures ok <==> && old(InMinute(OfUser(user), now)) < limits.username
                      && old(InMinute(OfSource(source), now)) < limits.source
                      && old(InMinute(Any(), now)) < limits.global
      ensures admitted == if ok then old(admitted) + [Attempt(user, source, now)] else old(admitted)
      ensures !ok ==> rows == old(rows)
    {
      hide Since, Times, Count, Bounded, Recent, Agree, WithinLimits;
      var cutoff := now - MINUTE;
      var was := rows;
      var attempt := Attempt(user, source, now);
      rows := DeleteOld(rows, cutoff);
      rows := rows + [attempt];
      StillAgree(was, admitted, clock, attempt);
      var total, ofUser, ofSource := CountRows(rows, user, source, cutoff);
      TallyAll(rows, admitted, attempt);
      if ofUser > limits.username || ofSource > limits.source || total > limits.global {
        rows := was;
        AgreeLater(rows, admitted, clock - MINUTE, cutoff);
        clock := now;
        return false;
      }
      clock := now;
      AdmitOne(admitted, attempt, limits);
      admitted := admitted + [attempt];
      return true;
    }
  }

  lemma RecentAgrees(rows: seq<Attempt>, cutoff: int, later: int)
    requires cutoff <= later
    ensures Agree(Recent(rows, cutoff), rows, later)
  {
    forall p ensures Since(Times(Recent(rows, cutoff), p), later) == Since(Times(rows, p), later) {
      TimesOfRecent(rows, cutoff, p);
      SinceTwice(Times(rows, p), cutoff, later);
    }
  }

  lemma AgreeLater(rows: seq<Attempt>, admitted: seq<Attempt>, earlier: int, later: int)
    requires earlier <= later && Agree(rows, admitted, earlier)
    ensures Agree(rows, admitted, later)
  {
    hide Since, Times;
    forall p ensures Since(Times(rows, p), later) == Since(Times(admitted, p), later) {
      SinceAgrees(Times(rows, p), Times(admitted, p), earlier, later);
    }
  }

  /** After deleting and inserting, the rows still agree with everything ever
      admitted, and this attempt. */
  lemma StillAgree(rows: seq<Attempt>, admitted: seq<Attempt>, clock: int, a: Attempt)
    requires clock <= a.at && Agree(rows, admitted, clock - MINUTE)
    ensures Agree(Recent(rows, a.at - MINUTE) + [a], admitted + [a], a.at - MINUTE)
  {
    hide Since, Times, Recent;
    var cutoff := a.at - MINUTE;
    forall p ensures Since(Times(Recent(rows, cutoff) + [a], p), cutoff) == Since(Times(admitted + [a], p), cutoff) {
      Reserved(rows, admitted, clock, a, p);
    }
  }

  /** The three sums are what was admitted in the minute, and this one. */
  lemma TallyAll(rows: seq<Attempt>, admitted: seq<Attempt>, a: Attempt)
    requires forall x :: x in admitted ==> x.at <= a.at
    requires Agree(rows, admitted + [a], a.at - MINUTE)
    ensures |Since(Times(rows, Any()), a.at - MINUTE)| == Count(Times(admitted, Any()), a.at - MINUTE, a.at) + 1
    ensures |Since(Times(rows, OfUser(a.user)), a.at - MINUTE)| == Count(Times(admitted, OfUser(a.user)), a.at - MINUTE, a.at) + 1
    ensures |Since(Times(rows, OfSource(a.source)), a.at - MINUTE)| == Count(Times(admitted, OfSource(a.source)), a.at - MINUTE, a.at) + 1
  {
    hide Since, Times, Count;
    Tally(rows, admitted, a, Any());
    Tally(rows, admitted, a, OfUser(a.user));
    Tally(rows, admitted, a, OfSource(a.source));
  }

  lemma {:induction false} RecentFewer(rows: seq<Attempt>, cutoff: int)
    ensures |Recent(rows, cutoff)| <= |rows|
  {
    if rows != [] {
      RecentFewer(rows[..|rows| - 1], cutoff);
    }
  }

  method DeleteOld(rows: seq<Attempt>, cutoff: int) returns (left: seq<Attempt>)
    ensures left == Recent(rows, cutoff)
  {
    left := [];
    for i := 0 to |rows|
      invariant left == Recent(rows[..i], cutoff)
    {
      if rows[i].at > cutoff {
        left := left + [rows[i]];
      }
      assert rows[..i + 1][..i] == rows[..i];
    }
    assert rows[..|rows|] == rows;
  }

  /** The three sums of the one query. */
  method CountRows(rows: seq<Attempt>, user: Text, source: Text, cutoff: int) returns (total: nat, ofUser: nat, ofSource: nat)
    ensures total == |Since(Times(rows, Any()), cutoff)|
    ensures ofUser == |Since(Times(rows, OfUser(user)), cutoff)|
    ensures ofSource == |Since(Times(rows, OfSource(source)), cutoff)|
  {
    total, ofUser, ofSource := 0, 0, 0;
    assert rows[..0] == [];
    assert forall p :: Since(Times([], p), cutoff) == [];
    hide Since, Times;
    for i := 0 to |rows|
      invariant total == |Since(Times(rows[..i], Any()), cutoff)|
      invariant ofUser == |Since(Times(rows[..i], OfUser(user)), cutoff)|
      invariant ofSource == |Since(Times(rows[..i], OfSource(source)), cutoff)|
    {
      assert rows[..i + 1] == rows[..i] + [rows[i]];
      OneMore(rows[..i], rows[i], Any(), cutoff);
      OneMore(rows[..i], rows[i], OfUser(user), cutoff);
      OneMore(rows[..i], rows[i], OfSource(source), cutoff);
      if rows[i].at > cutoff {
        total := total + 1;
        if rows[i].user == user {
          ofUser := ofUser + 1;
        }
        if rows[i].source == source {
          ofSource := ofSource + 1;
        }
      }
    }
    assert rows[..|rows|] == rows;
  }

  lemma OneMore(rows: seq<Attempt>, a: Attempt, p: Attempt -> bool, cutoff: int)
    ensures |Since(Times(rows + [a], p), cutoff)| == |Since(Times(rows, p), cutoff)| + (if p(a) && a.at > cutoff then 1 else 0)
  {
    TimesSnoc(rows, a, p);
    if p(a) {
      SinceSnoc(Times(rows, p), a.at, cutoff);
    }
  }

  /** After deleting and inserting, the rows still agree with everything ever
      admitted on what the window can reach. */
  lemma Reserved(rows: seq<Attempt>, admitted: seq<Attempt>, clock: int, a: Attempt, p: Attempt -> bool)
    requires clock <= a.at
    requires Since(Times(rows, p), clock - MINUTE) == Since(Times(admitted, p), clock - MINUTE)
    ensures Since(Times(Recent(rows, a.at - MINUTE) + [a], p), a.at - MINUTE) == Since(Times(admitted + [a], p), a.at - MINUTE)
  {
    var cutoff := a.at - MINUTE;
    SinceAgrees(Times(rows, p), Times(admitted, p), clock - MINUTE, cutoff);
    TimesOfRecent(rows, cutoff, p);
    SinceTwice(Times(rows, p), cutoff, cutoff);
    TimesSnoc(Recent(rows, cutoff), a, p);
    TimesSnoc(admitted, a, p);
    if p(a) {
      SinceSnoc(Times(Recent(rows, cutoff), p), a.at, cutoff);
      SinceSnoc(Times(admitted, p), a.at, cutoff);
    }
  }

  /** What the query counts is what was admitted in the minute, and this one. */
  lemma Tally(rows: seq<Attempt>, admitted: seq<Attempt>, a: Attempt, p: Attempt -> bool)
    requires p(a) && forall x :: x in admitted ==> x.at <= a.at
    requires Since(Times(rows, p), a.at - MINUTE) == Since(Times(admitted + [a], p), a.at - MINUTE)
    ensures |Since(Times(rows, p), a.at - MINUTE)| == Count(Times(admitted, p), a.at - MINUTE, a.at) + 1
  {
    hide Since, Times, Count;
    TimesUpTo(admitted, p, a.at);
    TimesSnoc(admitted, a, p);
    SinceSnoc(Times(admitted, p), a.at, a.at - MINUTE);
    CountIsSince(Times(admitted, p), a.at - MINUTE, a.at);
  }

  lemma AdmitKind(admitted: seq<Attempt>, a: Attempt, p: Attempt -> bool, limit: int)
    requires forall x :: x in admitted ==> x.at <= a.at
    requires Bounded(Times(admitted, p), MINUTE, limit)
    requires p(a) ==> Count(Times(admitted, p), a.at - MINUTE, a.at) < limit
    ensures Bounded(Times(admitted + [a], p), MINUTE, limit)
  {
    TimesUpTo(admitted, p, a.at);
    TimesSnoc(admitted, a, p);
    if p(a) {
      AdmitKeepsBound(Times(admitted, p), a.at, MINUTE, limit);
    }
  }

  lemma AdmitOne(admitted: seq<Attempt>, a: Attempt, l: Limits)
    requires (forall x :: x in admitted ==> x.at <= a.at) && WithinLimits(admitted, l)
    requires Count(Times(admitted, OfUser(a.user)), a.at - MINUTE, a.at) < l.username
    requires Count(Times(admitted, OfSource(a.source)), a.at - MINUTE, a.at) < l.source
    requires Count(Times(admitted, Any()), a.at - MINUTE, a.at) < l.global
    ensures WithinLimits(admitted + [a], l)
  {
    hide Count, Times, Bounded;
    forall user ensures Bounded(Times(admitted + [a], OfUser(user)), MINUTE, l.username) {
      AdmitKind(admitted, a, OfUser(user), l.username);
    }
    forall source ensures Bounded(Times(admitted + [a], OfSource(source)), MINUTE, l.source) {
      AdmitKind(admitted, a, OfSource(source), l.source);
    }
    AdmitKind(admitted, a, Any(), l.global);
  }
}
