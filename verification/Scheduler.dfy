/** One scheduled job under concurrent evaluation (internal/scheduler/
    scheduler.go): the per-job guard, the once-per-date marker, busy skips,
    panics, restarts. */
module Scheduler {
  import opened Wrappers
  import Daily

  /** A local date, as a day number. */
  type Date = int

  /** How a run of the job ends. A panic is recovered into a failure; `Busy` is
      the job's own ErrBusy, and does not count as having run. */
  datatype Ending = Succeeded | Failed | Panicked | Busy

  /** A call of `evaluateJob`, with the job it copied from the table. A run that
      starts `again` is under a date that has already had one. */
  datatype Phase =
    | Deciding
    | Running(key: Date, again: bool)
    | Remembering(key: Date, ran: bool)
    | Releasing
    | Over

  /** `key` is the date that an evaluation at the present moment goes by,
      `running` and `marker` are the scheduler's, `executed` lists the dates of
      the runs that counted, in order. */
  datatype State = State(
    key: Date,
    running: bool,
    marker: Option<Date>,
    calls: map<nat, Phase>,
    executed: seq<Date>)

  /** `due` says whether the scheduled instant has passed; time and reloads may
      change it and the key at any time. A restart forgets every call and the
      guard, and keeps the marker. */
  datatype Event =
    | Begin(call: nat)
    | Decide(call: nat, due: bool)
    | Finish(call: nat, ending: Ending)
    | Remember(call: nat)
    | Release(call: nat)
    | NewKey(key: Date)
    | Restart

  predicate CanHappen(s: State, e: Event) {
    match e
    case Begin(t) => t !in s.calls
    case Decide(t, _) => t in s.calls && s.calls[t].Deciding?
    case Finish(t, _) => t in s.calls && s.calls[t].Running?
    case Remember(t) => t in s.calls && s.calls[t].Remembering?
    case Release(t) => t in s.calls && s.calls[t].Releasing?
    case NewKey(_) => true
    case Restart => true
  }

  /** The checks of `evaluateJob` and `isDue`, under the mutex. */
  predicate Starts(s: State, due: bool) { !s.running && due && s.marker != Some(s.key) }

  function Next(s: State, e: Event): State
    requires CanHappen(s, e)
  {
    match e
    case Begin(t) => s.(calls := s.calls[t := Deciding])
    case Decide(t, due) =>
      if !Starts(s, due) then s.(calls := s.calls[t := Over])
      else s.(calls := s.calls[t := Running(s.key, s.key in s.executed)], running := true)
    case Finish(t, ending) =>
      var key := s.calls[t].key;
      s.(calls := s.calls[t := Remembering(key, !ending.Busy?)],
         executed := if ending.Busy? then s.executed else s.executed + [key])
    case Remember(t) =>
      s.(calls := s.calls[t := Releasing],
         marker := if s.calls[t].ran then Some(s.calls[t].key) else s.marker)
    case Release(t) => s.(calls := s.calls[t := Over], running := false)
    case NewKey(key) => s.(key := key)
    case Restart => s.(calls := map[], running := false)
  }

  /** What `due` and `key` are at the time `now`. */
  lemma DecidesAsIsDue(s: State, z: Daily.Zone, now: int, want: int)
    requires s.key == Daily.RunKey(z, now, want)
    ensures Starts(s, Daily.RunInstant(z, now, want) <= now) <==> !s.running && Daily.Due(z, now, want, s.marker)
  {
  }

  ghost predicate Possible(s: State, run: seq<Event>)
    decreases |run|
  {
    run != [] ==> CanHappen(s, run[0]) && Possible(Next(s, run[0]), run[1..])
  }

  function After(s: State, run: seq<Event>): State
    requires Possible(s, run)
    decreases |run|
  {
    if run == [] then s else After(Next(s, run[0]), run[1..])
  }

  function Idle(key: Date): State { State(key, false, None, map[], []) }

  // ----- exactly when a date runs twice -----

  predicate Guarded(p: Phase) { p.Running? || p.Remembering? || p.Releasing? }

  /** A call that has run but not yet written its marker. */
  predicate Unmarked(p: Phase) { p.Remembering? && p.ran }

  ghost predicate Distinct(s: seq<Date>) {
    forall i, j :: 0 <= i < j < |s| ==> s[i] != s[j]
  }

  ghost predicate Increasing(s: seq<Date>) {
    forall i, j :: 0 <= i < j < |s| ==> s[i] < s[j]
  }

  /** One call at a time is past the guard, and its `again` is still so. */
  ghost predicate OneGuard(s: State) {
    && (forall t :: t in s.calls && Guarded(s.calls[t]) ==> s.running)
    && (forall t, u :: t in s.calls && u in s.calls && Guarded(s.calls[t]) && Guarded(s.calls[u]) ==> t == u)
    && (forall t :: t in s.calls && s.calls[t].Running? ==> (s.calls[t].again <==> s.calls[t].key in s.executed))
  }

  lemma StepGuard(s: State, e: Event)
    requires OneGuard(s) && CanHappen(s, e)
    ensures OneGuard(Next(s, e))
  {
  }

  /** A run that started again and counts. */
  predicate Repeats(s: State, e: Event)
    requires CanHappen(s, e)
  {
    e.Finish? && !e.ending.Busy? && s.calls[e.call].again
  }

  ghost predicate NeverRepeats(s: State, run: seq<Event>)
    requires Possible(s, run)
    decreases |run|
  {
    run != [] ==> !Repeats(s, run[0]) && NeverRepeats(Next(s, run[0]), run[1..])
  }

  lemma StepRepeats(s: State, e: Event)
    requires OneGuard(s) && CanHappen(s, e)
    ensures Distinct(Next(s, e).executed) <==> Distinct(s.executed) && !Repeats(s, e)
  {
    var was, now := s.executed, Next(s, e).executed;
    if e.Finish? && !e.ending.Busy? {
      forall i, j | 0 <= i < j < |was| ensures was[i] == now[i] && was[j] == now[j] {
      }
      if Repeats(s, e) {
        var i :| 0 <= i < |was| && was[i] == s.calls[e.call].key;
        assert now[i] == now[|was|];
      } else if Distinct(was) {
        assert forall i :: 0 <= i < |was| ==> was[i] in was;
      } else {
        var i, j :| 0 <= i < j < |was| && was[i] == was[j];
        assert now[i] == now[j];
      }
    }
  }

  /** However evaluations, busy runs, panics, reloads, restarts and moves of the
      clock interleave: some date has two runs that count exactly when a run
      started under a date that had one already and was not busy. */
  lemma {:induction false} TwiceIff(s: State, run: seq<Event>)
    requires OneGuard(s) && Possible(s, run)
    ensures Distinct(After(s, run).executed) <==> Distinct(s.executed) && NeverRepeats(s, run)
    decreases |run|
  {
    if run != [] {
      StepGuard(s, run[0]);
      StepRepeats(s, run[0]);
      TwiceIff(Next(s, run[0]), run[1..]);
      hide Repeats, Distinct, Next;
    }
  }

  // ----- when a start is such a one -----

  /** The date of the last run that counted. */
  function Last(s: State): Option<Date> {
    if s.executed == [] then None else Some(s.executed[|s.executed| - 1])
  }

  /** The marker is the last counted date, but while the call that made that run
      still holds the guard. */
  ghost predicate Marked(s: State) {
    if exists t :: t in s.calls && Unmarked(s.calls[t])
    then forall t :: t in s.calls && Unmarked(s.calls[t]) ==> Last(s) == Some(s.calls[t].key)
    else s.marker == Last(s)
  }

  /** The restart comes between a run that counted and its marker. */
  ghost predicate LosesMarker(s: State, e: Event) {
    e.Restart? && s.marker != Last(s) && exists t :: t in s.calls && Unmarked(s.calls[t])
  }

  /** Only a restart between a run and its marker parts the marker from the last
      counted date. */
  lemma StepMarked(s: State, e: Event)
    requires OneGuard(s) && Marked(s) && CanHappen(s, e)
    ensures Marked(Next(s, e)) <==> !LosesMarker(s, e)
  {
    var n := Next(s, e);
    if e.Finish? {
      assert forall u :: u in s.calls ==> !Unmarked(s.calls[u]);
      assert !e.ending.Busy? ==> Unmarked(n.calls[e.call]);
    } else if e.Remember? {
      assert s.calls[e.call].ran ==> Unmarked(s.calls[e.call]);
      assert forall u :: u in n.calls ==> !Unmarked(n.calls[u]);
    } else if !e.Restart? {
      assert forall u :: u in s.calls && Unmarked(s.calls[u]) ==> u in n.calls && n.calls[u] == s.calls[u];
      assert forall u :: u in n.calls && Unmarked(n.calls[u]) ==> u in s.calls && n.calls[u] == s.calls[u];
    }
  }

  /** The dates counted before the last counted one. */
  function Earlier(s: State): seq<Date> { s.executed[..Max0(|s.executed| - 1)] }

  /** While no marker is lost, a start is under a date that has had a run exactly
      when the date has moved back: to one that ran before the last one did. */
  lemma AgainIffMovedBack(s: State, due: bool)
    requires OneGuard(s) && Marked(s) && Starts(s, due)
    ensures s.key in s.executed <==> s.key in Earlier(s)
    ensures Increasing(s.executed) && s.key in s.executed ==> s.key < Last(s).value
  {
    assert forall t :: t in s.calls ==> !Unmarked(s.calls[t]);
    if s.executed != [] {
      var n := |s.executed| - 1;
      assert s.executed == s.executed[..n] + [s.executed[n]];
    }
  }

  ghost predicate KeepsMarkers(s: State, run: seq<Event>)
    requires Possible(s, run)
    decreases |run|
  {
    run != [] ==> !LosesMarker(s, run[0]) && KeepsMarkers(Next(s, run[0]), run[1..])
  }

  /** No run counts that started when the date had moved back to one that ran
      before the last one did; `back` says it of the run that is on now. */
  ghost predicate NeverCountsBack(s: State, run: seq<Event>, back: bool)
    requires Possible(s, run)
    decreases |run|
  {
    run != [] ==>
      var e := run[0];
      && !(back && e.Finish? && !e.ending.Busy?)
      && NeverCountsBack(Next(s, e), run[1..],
                         if e.Decide? && Starts(s, e.due) then s.key in Earlier(s)
                         else back && !e.Finish? && !e.Restart?)
  }

  /** `back` is what the run that is on now started with. */
  ghost predicate StartedBack(s: State, back: bool) {
    forall t :: t in s.calls && s.calls[t].Running? ==> (s.calls[t].again <==> back)
  }

  lemma {:induction false} RepeatsAreBack(s: State, run: seq<Event>, back: bool)
    requires OneGuard(s) && Marked(s) && StartedBack(s, back) && Possible(s, run) && KeepsMarkers(s, run)
    ensures NeverRepeats(s, run) <==> NeverCountsBack(s, run, back)
    decreases |run|
  {
    if run != [] {
      var e := run[0];
      var next := if e.Decide? && Starts(s, e.due) then s.key in Earlier(s) else back && !e.Finish? && !e.Restart?;
      if e.Decide? && Starts(s, e.due) {
        AgainIffMovedBack(s, e.due);
      }
      StepGuard(s, e);
      StepMarked(s, e);
      StepStartedBack(s, e, back, next);
      RepeatsAreBack(Next(s, e), run[1..], next);
    }
  }

  lemma StepStartedBack(s: State, e: Event, back: bool, next: bool)
    requires OneGuard(s) && CanHappen(s, e) && StartedBack(s, back)
    requires if e.Decide? && Starts(s, e.due) then next == (s.key in s.executed) else next == (back && !e.Finish? && !e.Restart?)
    ensures StartedBack(Next(s, e), next)
  {
  }

  /** Over every run that loses no marker: some date has two runs that count
      exactly when a run that was not busy started on a date that the local date
      had moved back to. */
  lemma TwiceIffMovedBack(key: Date, run: seq<Event>)
    requires Possible(Idle(key), run) && KeepsMarkers(Idle(key), run)
    ensures Distinct(After(Idle(key), run).executed) <==> NeverCountsBack(Idle(key), run, false)
  {
    TwiceIff(Idle(key), run);
    RepeatsAreBack(Idle(key), run, false);
  }

  function Max0(n: int): nat { if n > 0 then n else 0 }

  // ----- runs in which the date does not move back -----

  /** Neither does the date move back nor a restart lose a marker. */
  ghost predicate Orderly(s: State, run: seq<Event>)
    requires Possible(s, run)
    decreases |run|
  {
    run != [] ==>
      && (run[0].NewKey? ==> s.key <= run[0].key) && !LosesMarker(s, run[0])
      && Orderly(Next(s, run[0]), run[1..])
  }

  ghost predicate OncePerDate(s: State) {
    && Increasing(s.executed)
    && (s.executed != [] ==> s.executed[|s.executed| - 1] <= s.key)
    && (forall t :: t in s.calls && s.calls[t].Running? ==>
          s.calls[t].key <= s.key
          && (s.executed != [] ==> s.executed[|s.executed| - 1] < s.calls[t].key))
  }

  ghost predicate Good(s: State) { OneGuard(s) && Marked(s) && OncePerDate(s) }

  lemma StepOnce(s: State, e: Event)
    requires Good(s) && CanHappen(s, e) && (e.NewKey? ==> s.key <= e.key)
    ensures OncePerDate(Next(s, e))
  {
    if e.Decide? && Starts(s, e.due) {
      assert forall t :: t in s.calls ==> !Unmarked(s.calls[t]);
    }
  }

  lemma {:induction false} RunKeeps(s: State, run: seq<Event>)
    requires Good(s) && Possible(s, run) && Orderly(s, run)
    ensures Good(After(s, run))
    decreases |run|
  {
    if run != [] {
      StepGuard(s, run[0]);
      StepMarked(s, run[0]);
      StepOnce(s, run[0]);
      RunKeeps(Next(s, run[0]), run[1..]);
    }
  }

  /** Then no date has two runs that count, and one call at a time is inside the
      job. */
  lemma AtMostOncePerDate(key: Date, run: seq<Event>, i: nat, j: nat)
    requires Possible(Idle(key), run) && Orderly(Idle(key), run)
    ensures var s := After(Idle(key), run);
            && (i < j < |s.executed| ==> s.executed[i] < s.executed[j])
            && (forall t, u :: t in s.calls && u in s.calls && s.calls[t].Running? && s.calls[u].Running? ==> t == u)
  {
    RunKeeps(Idle(key), run);
  }

  /** A run that finds the job busy leaves the date open: an evaluation later on
      the same date starts a run. */
  lemma BusyLeavesTheDate(s: State, t: nat, u: nat)
    requires Good(s) && t in s.calls && s.calls[t].Running? && s.calls[t].key == s.key
    requires u !in s.calls
    ensures var n := Next(Next(Next(Next(s, Finish(t, Busy)), Remember(t)), Release(t)), Begin(u));
            && n.executed == s.executed && n.marker == s.marker
            && Next(n, Decide(u, true)).calls[u] == Running(s.key, false)
  {
    assert forall v :: v in s.calls ==> !Unmarked(s.calls[v]);
    assert forall i :: 0 <= i < |s.executed| ==> s.executed[i] <= s.executed[|s.executed| - 1];
  }

  // ----- an evaluation by itself -----

  function EvaluatedAs(s: State, t: nat, ending: Ending): State
    requires t !in s.calls && Starts(s, true)
  {
    Next(Next(Next(Next(Next(s, Begin(t)), Decide(t, true)), Finish(t, ending)), Remember(t)), Release(t))
  }

  /** A due evaluation on a date that has not run runs the job, counts it under
      that date however it ends, unless it was busy, and is done: the guard is
      open again, and the date is due again exactly when it was busy. */
  lemma UndisturbedRun(s: State, t: nat, ending: Ending)
    requires t !in s.calls && !s.running && s.marker != Some(s.key)
    ensures Starts(s, true)
    ensures var n := EvaluatedAs(s, t, ending);
            && n.key == s.key && !n.running && n.calls == s.calls[t := Over]
            && n.executed == (if ending == Busy then s.executed else s.executed + [s.key])
            && n.marker == (if ending == Busy then s.marker else Some(s.key))
            && (Starts(n, true) <==> ending == Busy)
  {
  }

  /** An evaluation that finds another one at work, an instant that has not come
      or a date that has run, does nothing. */
  lemma UndisturbedSkip(s: State, t: nat, due: bool)
    requires t !in s.calls && (s.running || !due || s.marker == Some(s.key))
    ensures Next(Next(s, Begin(t)), Decide(t, due)) == s.(calls := s.calls[t := Over])
  {
  }

  function Counted(run: seq<Event>): nat {
    if run == [] then 0 else (if run[0].Finish? && !run[0].ending.Busy? then 1 else 0) + Counted(run[1..])
  }

  /** Over any run, what has counted is one run for each that ended other than
      busy, and none is ever forgotten. */
  lemma {:induction false} EveryRunCounts(s: State, run: seq<Event>)
    requires Possible(s, run)
    ensures |After(s, run).executed| == |s.executed| + Counted(run) && s.executed <= After(s, run).executed
    decreases |run|
  {
    if run != [] {
      EveryRunCounts(Next(s, run[0]), run[1..]);
    }
  }

  // ----- and the two ways it runs twice -----

  /** One evaluation, undisturbed, on a date that starts. */
  function Evaluated(s: State, t: nat): State
    requires t !in s.calls && Starts(s, true)
  {
    EvaluatedAs(s, t, Succeeded)
  }

  /** A date that ran, then another, then back: the first one runs again. */
  lemma ClockBackRunsAgain(first: Date, second: Date)
    requires first != second
    ensures var one := Evaluated(Idle(first), 0);
            var other := Next(one, NewKey(second));
            Starts(other, true) &&
            var two := Evaluated(other, 1);
            var back := Next(two, NewKey(first));
            Starts(back, true) && Evaluated(back, 2).executed == [first, second, first]
  {
  }

  /** A restart after the run and before its marker: the date runs again. */
  lemma RestartRunsAgain(date: Date)
    ensures var counted := Next(Next(Next(Idle(date), Begin(0)), Decide(0, true)), Finish(0, Succeeded));
            && LosesMarker(counted, Restart)
            && var s := Next(counted, Restart);
               Starts(s, true) && Evaluated(s, 1).executed == [date, date]
  {
    var counted := Next(Next(Next(Idle(date), Begin(0)), Decide(0, true)), Finish(0, Succeeded));
    assert Unmarked(counted.calls[0]);
  }
}
