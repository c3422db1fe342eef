/** The instant of a daily wall time on a day with an offset change
    (internal/scheduler/daily.go), and when a job is due by it and under which
    date (internal/scheduler/scheduler.go, isDue). Times are minutes since the
    epoch. */
module Daily {
  import opened Wrappers

  const DAY := 1440

  /** A zone around one change: UTC offset `before` until the instant `at`, then
      `after`. No shift exceeds four hours. */
  datatype Zone = Zone(before: int, after: int, at: int) {
    predicate Valid() { -240 <= after - before <= 240 }
    function Offset(u: int): int { if u < at then before else after }
    /** The wall clock, in minutes since the epoch's midnight. */
    function Wall(u: int): int { u + Offset(u) }
    /** The wall time falls into the hour a forward change leaves out. */
    predicate Skipped(wall: int) { at + before <= wall < at + after }
    /** The wall time comes twice at a backward change. */
    predicate Repeated(wall: int) { at + after <= wall < at + before }
  }

  /** `time.Date`: takes the offset in force when the wall time is read as UTC,
      and corrects it once when the instant it gives lies across the change. An
      offset of zero is not corrected. */
  function Date(z: Zone, wall: int): int {
    var offset := z.Offset(wall);
    if offset == 0 then wall
    else if z.Offset(wall - offset) == offset then wall - offset
    else wall - z.Offset(wall - offset)
  }

  /** Hour and minute of the wall clock. */
  function MinuteOfDay(wall: int): int { wall % DAY }

  /** Where the loop ends up, by cases on the change. */
  function RunAt(z: Zone, midnight: int, want: int): int {
    var wall := midnight + want;
    var gap := z.after - z.before;
    if !z.Skipped(wall) then Date(z, wall)
    else if wall >= z.at then
      if wall + gap < midnight + DAY then wall - z.before else wall - z.before + DAY - gap
    else if wall - gap < midnight then wall - z.after
    else if wall + gap < midnight + DAY then wall - z.before
    else wall - z.before + DAY - gap
  }

  lemma DateIs(z: Zone, wall: int)
    ensures !z.Skipped(wall) ==> z.Wall(Date(z, wall)) == wall
    ensures z.Skipped(wall) ==> Date(z, wall) == if wall >= z.at then wall - z.before else wall - z.after
  {
  }

  lemma MinuteOf(midnight: int, x: int)
    requires midnight % DAY == 0
    ensures 0 <= x < DAY ==> MinuteOfDay(midnight + x) == x
    ensures DAY <= x < 2 * DAY ==> MinuteOfDay(midnight + x) == x - DAY
    ensures -DAY <= x < 0 ==> MinuteOfDay(midnight + x) == x + DAY
  {
    var d := midnight / DAY;
    assert midnight == d * DAY;
    if 0 <= x < DAY {
      Quotient(d, x);
    } else if DAY <= x < 2 * DAY {
      Quotient(d + 1, x - DAY);
    } else if -DAY <= x < 0 {
      Quotient(d - 1, x + DAY);
    }
  }

  lemma Quotient(d: int, x: int)
    requires 0 <= x < DAY
    ensures (d * DAY + x) % DAY == x
  {
  }

  /** `DailyRunAt` for the local day that starts at `midnight`. */
  method DailyRunAt(z: Zone, midnight: int, want: int) returns (runAt: int)
    requires z.Valid() && midnight % DAY == 0 && 0 <= want < DAY
    ensures runAt == RunAt(z, midnight, want)
  {
    ghost var gap := z.after - z.before;
    DateIs(z, midnight + want);
    runAt := Date(z, midnight + want);
    hide Date, MinuteOfDay;
    ghost var late := midnight + want - z.before;
    for i := 0 to 4
      invariant i == 0 ==> runAt == Date(z, midnight + want)
      invariant i == 1 ==> && z.Skipped(midnight + want)
                           && (|| (midnight + want >= z.at && want + gap >= DAY && runAt == late + DAY - gap)
                               || (midnight + want < z.at && want >= gap && runAt == late))
      invariant i == 2 ==> && z.Skipped(midnight + want) && midnight + want < z.at
                           && want >= gap && want + gap >= DAY && runAt == late + DAY - gap
      invariant i <= 2
    {
      var wall := MinuteOfDay(z.Wall(runAt));
      MinuteOf(midnight, z.Wall(runAt) - midnight);
      if wall >= want {
        break;
      }
      runAt := runAt + (want - wall);
    }
  }

  predicate OnTheDay(z: Zone, midnight: int, want: int, r: int) {
    midnight + want <= z.Wall(r) < midnight + DAY
  }

  /** The run comes on its day, at or after the requested wall time, exactly
      when that time exists, or is skipped with room for the whole shift on
      both sides of it in the same day (before it only where the wall time read
      as UTC precedes the change). */
  lemma RunsOnItsDay(z: Zone, midnight: int, want: int)
    requires z.Valid() && 0 <= want < DAY
    ensures var wall, gap := midnight + want, z.after - z.before;
            OnTheDay(z, midnight, want, RunAt(z, midnight, want))
            <==> !z.Skipped(wall) || (wall + gap < midnight + DAY && (wall >= z.at || midnight <= wall - gap))
  {
    DateIs(z, midnight + want);
  }

  /** An existing wall time is met to the minute; a skipped one is put off by the
      length of the shift, which is the first valid instant only for the first
      skipped minute. */
  lemma HowLate(z: Zone, midnight: int, want: int)
    requires z.Valid() && 0 <= want < DAY && OnTheDay(z, midnight, want, RunAt(z, midnight, want))
    ensures var r, wall := RunAt(z, midnight, want), midnight + want;
            && (!z.Skipped(wall) ==> z.Wall(r) == wall)
            && (z.Skipped(wall) ==> z.Wall(r) == wall + z.after - z.before && r - z.at == wall - (z.at + z.before))
            && (forall u :: z.Skipped(wall) && z.Wall(u) >= wall && u < z.at ==> false)
  {
    DateIs(z, midnight + want);
  }

  /** A repeated wall time runs at its first occurrence exactly when, read as
      UTC, it precedes the change: west of Greenwich. */
  lemma FirstOccurrence(z: Zone, midnight: int, want: int)
    requires z.Repeated(midnight + want)
    ensures var r, wall := RunAt(z, midnight, want), midnight + want;
            && z.Wall(r) == wall
            && (forall u :: z.Wall(u) == wall <==> u == wall - z.before || u == wall - z.after)
            && (r == wall - z.before <==> wall < z.at)
  {
  }

  // ----- due, and under which date -----

  function LocalDate(z: Zone, u: int): int { z.Wall(u) / DAY }

  /** The instant and the date that an evaluation at `now` goes by: the marker's
      key is the date of the instant, not of the evaluation. */
  function RunInstant(z: Zone, now: int, want: int): int { RunAt(z, LocalDate(z, now) * DAY, want) }
  function RunKey(z: Zone, now: int, want: int): int { LocalDate(z, RunInstant(z, now, want)) }

  predicate Due(z: Zone, now: int, want: int, marker: Option<int>) {
    RunInstant(z, now, want) <= now && marker != Some(RunKey(z, now, want))
  }

  /** `isDue`. */
  method IsDue(z: Zone, now: int, want: int, marker: Option<int>) returns (due: bool, key: int)
    requires z.Valid() && 0 <= want < DAY
    ensures key == RunKey(z, now, want) && due == Due(z, now, want, marker)
  {
    var runAt := DailyRunAt(z, LocalDate(z, now) * DAY, want);
    key := LocalDate(z, runAt);
    if now < runAt {
      return false, key;
    }
    due := Some(key) != marker;
  }

  /** The shift reaches back over midnight: the wall time is skipped too early in
      the day. */
  predicate TooEarly(z: Zone, midnight: int, want: int) {
    z.Skipped(midnight + want) && midnight + want < z.at && midnight + want - (z.after - z.before) < midnight
  }

  /** The shift reaches on over midnight: it is skipped too late in the day. */
  predicate TooLate(z: Zone, midnight: int, want: int) {
    z.Skipped(midnight + want) && !TooEarly(z, midnight, want) && midnight + want + (z.after - z.before) >= midnight + DAY
  }

  lemma DateOf(d: int, x: int)
    requires 0 <= x < DAY
    ensures (d * DAY + x) / DAY == d
  {
  }

  lemma OfDate(z: Zone, u: int)
    ensures LocalDate(z, u) * DAY <= z.Wall(u) < LocalDate(z, u) * DAY + DAY
  {
  }

  /** What a whole day of evaluations does. On an ordinary day the job is due
      from its instant on, under its own date. On a day whose time is skipped too
      early it goes by the evening before: due all day, but under the date before
      and so not at all if it ran then. On a day whose time is skipped too late
      it is never due. */
  lemma DueOnTheDay(z: Zone, now: int, want: int, marker: Option<int>)
    requires z.Valid() && 0 <= want < DAY
    ensures var d, r := LocalDate(z, now), RunInstant(z, now, want);
            if TooEarly(z, d * DAY, want) then RunKey(z, now, want) == d - 1 && (Due(z, now, want, marker) <==> marker != Some(d - 1))
            else if TooLate(z, d * DAY, want) then RunKey(z, now, want) == d + 1 && !Due(z, now, want, marker)
            else RunKey(z, now, want) == d && (Due(z, now, want, marker) <==> r <= now && marker != Some(d))
  {
    var d, r, gap := LocalDate(z, now), RunInstant(z, now, want), z.after - z.before;
    var midnight := d * DAY;
    DateIs(z, midnight + want);
    RunsOnItsDay(z, midnight, want);
    OfDate(z, now);
    if TooEarly(z, midnight, want) {
      DateOf(d - 1, want - gap + DAY);
      assert z.Wall(r) == (d - 1) * DAY + (want - gap + DAY);
    } else if TooLate(z, midnight, want) {
      DateOf(d + 1, want);
      assert z.Wall(r) == (d + 1) * DAY + want;
    } else {
      assert OnTheDay(z, midnight, want, r);
      DateOf(d, z.Wall(r) - midnight);
    }
  }

  /** A job that ran the day before runs at some moment of a day exactly when the
      shift does not carry its time out of that day. */
  lemma RunsEveryOrdinaryDay(z: Zone, d: int, want: int)
    requires z.Valid() && 0 <= want < DAY
    ensures (exists now :: LocalDate(z, now) == d && Due(z, now, want, Some(d - 1)))
            <==> !TooEarly(z, d * DAY, want) && !TooLate(z, d * DAY, want)
  {
    var r := RunAt(z, d * DAY, want);
    if !TooEarly(z, d * DAY, want) && !TooLate(z, d * DAY, want) {
      RunsOnItsDay(z, d * DAY, want);
      DateOf(d, z.Wall(r) - d * DAY);
      assert LocalDate(z, r) == d && RunInstant(z, r, want) == r;
      DueOnTheDay(z, r, want, Some(d - 1));
    }
    if now :| LocalDate(z, now) == d && Due(z, now, want, Some(d - 1)) {
      DueOnTheDay(z, now, want, Some(d - 1));
    }
  }

  /** The change begins and ends within the local day d. */
  predicate InsideDay(z: Zone, d: int) {
    d * DAY <= z.at + z.before <= d * DAY + DAY && d * DAY <= z.at + z.after <= d * DAY + DAY
  }

  lemma DatesInOrder(z: Zone, d: int, now: int, later: int)
    requires InsideDay(z, d) && now <= later
    ensures LocalDate(z, now) <= LocalDate(z, later)
  {
    OfDate(z, now);
    OfDate(z, later);
  }

  /** With a fixed time and zone the keys never go back, and a local date has one
      key: the marker admits one run on it. */
  lemma KeysInOrder(z: Zone, d: int, now: int, later: int, want: int)
    requires z.Valid() && 0 <= want < DAY && InsideDay(z, d) && now <= later
    ensures RunKey(z, now, want) <= RunKey(z, later, want)
    ensures LocalDate(z, now) == LocalDate(z, later) ==> RunKey(z, now, want) == RunKey(z, later, want)
  {
    DatesInOrder(z, d, now, later);
    DueOnTheDay(z, now, want, None);
    DueOnTheDay(z, later, want, None);
    var a, b := LocalDate(z, now), LocalDate(z, later);
    if z.Skipped(a * DAY + want) {
      assert a == d;
    }
    if z.Skipped(b * DAY + want) {
      assert b == d;
    }
    hide RunKey, Due, RunInstant;
  }

  /** New York skips 02:30 and runs an hour late. Sao Paulo's clocks jumped at
      midnight: 00:30 goes by 23:30 of the day before, so a job that ran then does
      not run on the day of the change. Berlin runs the repeated 02:30 at its
      second occurrence. Day 0 stands for the day of the change. */
  lemma ThreeZones()
    ensures RunAt(Zone(-300, -240, 420), 0, 150) == 450
    ensures var z := Zone(-180, -120, 180); z.Wall(RunAt(z, 0, 30)) == -30 && TooEarly(z, 0, 30)
    ensures var z := Zone(120, 60, 60); z.Wall(90) == 150 && z.Wall(30) == 150 && RunAt(z, 0, 150) == 90
  {
  }
}
