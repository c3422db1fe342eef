/** Claims on one idempotency scope and key (internal/idempotency/service.go):
    every interleaving of claims, inspections, completions inside a business
    transaction, roll-backs, releases, expiry and crashes. */
module Idempotency {
  import opened Wrappers

  type Fingerprint = nat
  type Resource = nat

  /** The row; `result` is None while the claim is pending. */
  datatype Row = Row(fp: Fingerprint, result: Option<Resource>, expired: bool)

  datatype Outcome = Conflict | InFlight | Failed | Succeeded(resource: Resource) | Replayed(resource: Resource)

  datatype Phase =
    | Inserting(fp: Fingerprint, attempt: nat)
    | Inspecting(fp: Fingerprint, attempt: nat)
    | Reclaiming(fp: Fingerprint, attempt: nat)
    | Holding(fp: Fingerprint)
    | Releasing(fp: Fingerprint)
    | Replaying(fp: Fingerprint)
    | Done(fp: Fingerprint, outcome: Outcome)

  /** `changes` are the business changes that were committed, in order. */
  datatype State = State(row: Option<Row>, requests: map<nat, Phase>, changes: seq<Resource>)

  datatype Event =
    | Begin(request: nat, fp: Fingerprint)
    | Insert(request: nat)
    | Inspect(request: nat)
    | DeleteStale(request: nat)
    | Complete(request: nat, resource: Resource, told: bool)
    | RollBack(request: nat)
    | Release(request: nat)
    | Replay(request: nat)
    | Expire | Cleanup | Crash

  predicate CanHappen(s: State, e: Event) {
    match e
    case Begin(t, _) => t !in s.requests
    case Insert(t) => t in s.requests && s.requests[t].Inserting?
    case Inspect(t) => t in s.requests && s.requests[t].Inspecting?
    case DeleteStale(t) => t in s.requests && s.requests[t].Reclaiming?
    case Complete(t, _, _) => t in s.requests && s.requests[t].Holding?
    case RollBack(t) => t in s.requests && s.requests[t].Holding?
    case Release(t) => t in s.requests && s.requests[t].Releasing?
    case Replay(t) => t in s.requests && s.requests[t].Replaying?
    case Expire => true
    case Cleanup => true
    case Crash => true
  }

  predicate Pending(row: Option<Row>) { row.Some? && row.value.result.None? }
  predicate Completed(row: Option<Row>) { row.Some? && row.value.result.Some? }

  /** `told` is false when the business commit took effect but reported an
      error. A completion that finds no live pending row rolls its transaction
      back. */
  function Next(s: State, e: Event): State
    requires CanHappen(s, e)
  {
    match e
    case Begin(t, fp) => s.(requests := s.requests[t := Inserting(fp, 0)])
    case Insert(t) =>
      var p := s.requests[t];
      if s.row.None? then s.(row := Some(Row(p.fp, None, false)), requests := s.requests[t := Holding(p.fp)])
      else s.(requests := s.requests[t := Inspecting(p.fp, p.attempt)])
    case Inspect(t) =>
      var p := s.requests[t];
      s.(requests := s.requests[t :=
        if s.row.None? then Done(p.fp, Failed)
        else if s.row.value.expired then Reclaiming(p.fp, p.attempt)
        else if s.row.value.fp != p.fp then Done(p.fp, Conflict)
        else if s.row.value.result.Some? then Replaying(p.fp)
        else Done(p.fp, InFlight)])
    case DeleteStale(t) =>
      var p := s.requests[t];
      s.(row := None,
         requests := s.requests[t := if p.attempt == 0 then Inserting(p.fp, 1) else Done(p.fp, InFlight)])
    case Complete(t, resource, told) =>
      var p := s.requests[t];
      if Pending(s.row) && !s.row.value.expired
      then State(Some(s.row.value.(result := Some(resource))),
                 s.requests[t := if told then Done(p.fp, Succeeded(resource)) else Releasing(p.fp)],
                 s.changes + [resource])
      else s.(requests := s.requests[t := Releasing(p.fp)])
    case RollBack(t) => s.(requests := s.requests[t := Releasing(s.requests[t].fp)])
    case Release(t) =>
      s.(row := if Pending(s.row) then None else s.row,
         requests := s.requests[t := Done(s.requests[t].fp, Failed)])
    case Replay(t) =>
      var p := s.requests[t];
      s.(requests := s.requests[t :=
        if s.row.Some? && s.row.value.fp == p.fp && s.row.value.result.Some?
        then Done(p.fp, Replayed(s.row.value.result.value)) else Done(p.fp, Failed)])
    case Expire => s.(row := if s.row.Some? then Some(s.row.value.(expired := true)) else None)
    case Cleanup => s.(row := if s.row.Some? && s.row.value.expired then None else s.row)
    case Crash => s.(requests := map[])
  }

  ghost predicate Possible(s: State, run: seq<Event>)
    decreases |run|
  {
    run != [] ==> CanHappen(s, run[0]) && Possible(Next(s, run[0]), run[1..])
  }

  function After(s: State, run: seq<Event>): State
    requires Possible(s, run)
    decreases |run|
  {
    if run == [] then s else After(Next(s, run[0]), run[1..])
  }

  const UNUSED := State(None, map[], [])

  // ----- runs in which no row expires -----

  predicate Owns(p: Phase) { p.Holding? || p.Releasing? }

  ghost predicate Fresh(s: State) {
    && (s.row.Some? ==> !s.row.value.expired)
    && (forall t :: t in s.requests ==> !s.requests[t].Reclaiming?)
  }

  /** A claim in hand is the pending row's, and the only one. */
  ghost predicate OneOwner(s: State) {
    && (forall t :: t in s.requests && s.requests[t].Holding? ==> Pending(s.row) && s.row.value.fp == s.requests[t].fp)
    && (forall t :: t in s.requests && s.requests[t].Releasing? ==> s.row.Some?)
    && (forall t, u :: t in s.requests && u in s.requests && Owns(s.requests[t]) && Owns(s.requests[u]) ==> t == u)
  }

  /** A business change and its record are the same event. */
  ghost predicate Recorded(s: State) {
    s.changes == (if Completed(s.row) then [s.row.value.result.value] else [])
  }

  /** What an answer says is so. */
  predicate Answered(s: State, p: Phase) {
    && (p.Done? && (p.outcome.Succeeded? || p.outcome.Replayed?) ==>
          s.row == Some(Row(p.fp, Some(p.outcome.resource), false)))
    && (p.Replaying? ==> Completed(s.row) && s.row.value.fp == p.fp)
  }

  ghost predicate AllAnswered(s: State) { forall t :: t in s.requests ==> Answered(s, s.requests[t]) }

  ghost predicate Good(s: State) { Fresh(s) && OneOwner(s) && Recorded(s) && AllAnswered(s) }

  lemma StepFresh(s: State, e: Event)
    requires Fresh(s) && CanHappen(s, e) && !e.Expire?
    ensures Fresh(Next(s, e))
  {
  }

  lemma StepOneOwner(s: State, e: Event)
    requires Fresh(s) && OneOwner(s) && CanHappen(s, e) && !e.Expire?
    ensures OneOwner(Next(s, e))
  {
  }

  lemma StepRecorded(s: State, e: Event)
    requires Fresh(s) && Recorded(s) && CanHappen(s, e) && !e.Expire?
    ensures Recorded(Next(s, e))
    ensures Completed(s.row) ==> Next(s, e).row == s.row
  {
  }

  lemma StepAllAnswered(s: State, e: Event)
    requires Fresh(s) && OneOwner(s) && AllAnswered(s) && CanHappen(s, e) && !e.Expire?
    ensures AllAnswered(Next(s, e))
  {
  }

  lemma StepKeeps(s: State, e: Event)
    requires Good(s) && CanHappen(s, e) && !e.Expire?
    ensures Good(Next(s, e))
    ensures s.changes != [] ==> Next(s, e).row == s.row
  {
    StepFresh(s, e);
    StepOneOwner(s, e);
    StepRecorded(s, e);
    StepAllAnswered(s, e);
    hide Next, Fresh, OneOwner, AllAnswered;
  }

  ghost predicate NoExpiry(run: seq<Event>) { forall e :: e in run ==> !e.Expire? }

  lemma {:induction false} RunKeeps(s: State, run: seq<Event>)
    requires Good(s) && Possible(s, run) && NoExpiry(run)
    ensures Good(After(s, run))
    ensures s.changes != [] ==> After(s, run).row == s.row
    decreases |run|
  {
    if run != [] {
      StepKeeps(s, run[0]);
      RunKeeps(Next(s, run[0]), run[1..]);
    }
  }

  /** At most one business change; every request that is told of success or of a
      replay is told its resource. */
  lemma AtMostOneChange(run: seq<Event>, t: nat)
    requires Possible(UNUSED, run) && NoExpiry(run)
    ensures var s := After(UNUSED, run);
            && |s.changes| <= 1
            && (t in s.requests && s.requests[t].Done? && (s.requests[t].outcome.Succeeded? || s.requests[t].outcome.Replayed?)
                ==> s.changes == [s.requests[t].outcome.resource])
  {
    RunKeeps(UNUSED, run);
  }

  /** Once the change is committed, whatever follows: a later claim with its
      fingerprint replays its resource, any other conflicts. */
  lemma LaterClaims(s: State, run: seq<Event>, t: nat, fp: Fingerprint)
    requires Good(s) && s.changes != [] && Possible(s, run) && NoExpiry(run)
    requires var n := After(s, run); t !in n.requests
    ensures var n := After(s, run);
            var begun := Next(n, Begin(t, fp));
            CanHappen(begun, Insert(t)) &&
            var refused := Next(begun, Insert(t));
            CanHappen(refused, Inspect(t)) &&
            var claimed := Next(refused, Inspect(t));
            && claimed.changes == s.changes
            && if fp == s.row.value.fp
               then CanHappen(claimed, Replay(t))
                    && Next(claimed, Replay(t)).requests[t] == Done(fp, Replayed(s.changes[0]))
               else claimed.requests[t] == Done(fp, Conflict)
  {
    RunKeeps(s, run);
  }

  // ----- a request by itself -----

  lemma Before(s: State, e: Event, rest: seq<Event>)
    requires CanHappen(s, e) && Possible(Next(s, e), rest)
    ensures Possible(s, [e] + rest) && After(s, [e] + rest) == After(Next(s, e), rest)
  {
    assert ([e] + rest)[1..] == rest;
  }

  /** From no row: the change is made once, recorded and told. */
  lemma UndisturbedSuccess(s: State, t: nat, fp: Fingerprint, resource: Resource)
    requires s.row.None? && t !in s.requests
    ensures var run := [Begin(t, fp)] + ([Insert(t)] + ([Complete(t, resource, true)] + []));
            && Possible(s, run)
            && After(s, run) == State(Some(Row(fp, Some(resource), false)), s.requests[t := Done(fp, Succeeded(resource))],
                                      s.changes + [resource])
  {
    var s1 := Next(s, Begin(t, fp));
    var s2 := Next(s1, Insert(t));
    Before(s2, Complete(t, resource, true), []);
    Before(s1, Insert(t), [Complete(t, resource, true)] + []);
    Before(s, Begin(t, fp), [Insert(t)] + ([Complete(t, resource, true)] + []));
  }

  /** A business failure: nothing changes, and the key can be claimed afresh. */
  lemma UndisturbedFailure(s: State, t: nat, fp: Fingerprint)
    requires s.row.None? && t !in s.requests
    ensures var run := [Begin(t, fp)] + ([Insert(t)] + ([RollBack(t)] + ([Release(t)] + [])));
            && Possible(s, run)
            && After(s, run) == s.(requests := s.requests[t := Done(fp, Failed)])
  {
    var s1 := Next(s, Begin(t, fp));
    var s2 := Next(s1, Insert(t));
    var s3 := Next(s2, RollBack(t));
    Before(s3, Release(t), []);
    Before(s2, RollBack(t), [Release(t)] + []);
    Before(s1, Insert(t), [RollBack(t)] + ([Release(t)] + []));
    Before(s, Begin(t, fp), [Insert(t)] + ([RollBack(t)] + ([Release(t)] + [])));
  }

  /** While another request holds the key, a claim is told so, or that its
      payload is a different one; nothing changes. */
  lemma UndisturbedBusy(s: State, t: nat, fp: Fingerprint)
    requires Pending(s.row) && !s.row.value.expired && t !in s.requests
    ensures var run := [Begin(t, fp)] + ([Insert(t)] + ([Inspect(t)] + []));
            && Possible(s, run)
            && After(s, run) == s.(requests := s.requests[t := Done(fp, if fp == s.row.value.fp then InFlight else Conflict)])
  {
    var s1 := Next(s, Begin(t, fp));
    var s2 := Next(s1, Insert(t));
    Before(s2, Inspect(t), []);
    Before(s1, Insert(t), [Inspect(t)] + []);
    Before(s, Begin(t, fp), [Insert(t)] + ([Inspect(t)] + []));
  }

  /** An expired row is no obstacle, whatever it holds. */
  lemma UndisturbedReclaim(s: State, t: nat, fp: Fingerprint)
    requires s.row.Some? && s.row.value.expired && t !in s.requests
    ensures var run := [Begin(t, fp)] + ([Insert(t)] + ([Inspect(t)] + ([DeleteStale(t)] + ([Insert(t)] + []))));
            && Possible(s, run)
            && After(s, run) == State(Some(Row(fp, None, false)), s.requests[t := Holding(fp)], s.changes)
  {
    var s1 := Next(s, Begin(t, fp));
    var s2 := Next(s1, Insert(t));
    var s3 := Next(s2, Inspect(t));
    var s4 := Next(s3, DeleteStale(t));
    Before(s4, Insert(t), []);
    Before(s3, DeleteStale(t), [Insert(t)] + []);
    Before(s2, Inspect(t), [DeleteStale(t)] + ([Insert(t)] + []));
    Before(s1, Insert(t), [Inspect(t)] + ([DeleteStale(t)] + ([Insert(t)] + [])));
    Before(s, Begin(t, fp), [Insert(t)] + ([Inspect(t)] + ([DeleteStale(t)] + ([Insert(t)] + []))));
  }

  /** The commit took effect and reported an error: the request is told of a
      failure, and a later one will replay what was made. */
  lemma UndisturbedUntold(s: State, t: nat, fp: Fingerprint, resource: Resource)
    requires s.row.None? && t !in s.requests
    ensures var run := [Begin(t, fp)] + ([Insert(t)] + ([Complete(t, resource, false)] + ([Release(t)] + [])));
            && Possible(s, run)
            && After(s, run) == State(Some(Row(fp, Some(resource), false)), s.requests[t := Done(fp, Failed)], s.changes + [resource])
  {
    var s1 := Next(s, Begin(t, fp));
    var s2 := Next(s1, Insert(t));
    var s3 := Next(s2, Complete(t, resource, false));
    Before(s3, Release(t), []);
    Before(s2, Complete(t, resource, false), [Release(t)] + []);
    Before(s1, Insert(t), [Complete(t, resource, false)] + ([Release(t)] + []));
    Before(s, Begin(t, fp), [Insert(t)] + ([Complete(t, resource, false)] + ([Release(t)] + [])));
  }

  /** A crash leaves the claim behind and nobody to release it. */
  lemma UndisturbedAfterCrash(s: State, t: nat, fp: Fingerprint)
    requires Pending(s.row) && !s.row.value.expired
    ensures var run := [Crash] + ([Begin(t, fp)] + ([Insert(t)] + ([Inspect(t)] + [])));
            && Possible(s, run)
            && After(s, run) == s.(requests := map[t := Done(fp, if fp == s.row.value.fp then InFlight else Conflict)])
  {
    UndisturbedBusy(Next(s, Crash), t, fp);
    Before(s, Crash, [Begin(t, fp)] + ([Insert(t)] + ([Inspect(t)] + [])));
  }

  /** The holder lets go between another's insert and its look at the row. */
  lemma RowVanishes(s: State, t: nat, u: nat, fp: Fingerprint)
    requires Pending(s.row) && t !in s.requests && u in s.requests && s.requests[u].Releasing?
    ensures var run := [Begin(t, fp)] + ([Insert(t)] + ([Release(u)] + ([Inspect(t)] + [])));
            && Possible(s, run)
            && After(s, run) == s.(row := None, requests := s.requests[u := Done(s.requests[u].fp, Failed)][t := Done(fp, Failed)])
  {
    var s1 := Next(s, Begin(t, fp));
    var s2 := Next(s1, Insert(t));
    var s3 := Next(s2, Release(u));
    Before(s3, Inspect(t), []);
    Before(s2, Release(u), [Inspect(t)] + []);
    Before(s1, Insert(t), [Release(u)] + ([Inspect(t)] + []));
    Before(s, Begin(t, fp), [Insert(t)] + ([Release(u)] + ([Inspect(t)] + [])));
  }

  /** A completed row that expires and goes between the look and the replay. */
  lemma RecordVanishes(s: State, t: nat)
    requires Completed(s.row) && !s.row.value.expired && t !in s.requests
    ensures var fp := s.row.value.fp;
            var run := [Begin(t, fp)] + ([Insert(t)] + ([Inspect(t)] + ([Expire] + ([Cleanup] + ([Replay(t)] + [])))));
            && Possible(s, run)
            && After(s, run) == s.(row := None, requests := s.requests[t := Done(fp, Failed)])
  {
    var fp := s.row.value.fp;
    var s1 := Next(s, Begin(t, fp));
    var s2 := Next(s1, Insert(t));
    var s3 := Next(s2, Inspect(t));
    var s4 := Next(s3, Expire);
    var s5 := Next(s4, Cleanup);
    Before(s5, Replay(t), []);
    Before(s4, Cleanup, [Replay(t)] + []);
    Before(s3, Expire, [Cleanup] + ([Replay(t)] + []));
    Before(s2, Inspect(t), [Expire] + ([Cleanup] + ([Replay(t)] + [])));
    Before(s1, Insert(t), [Inspect(t)] + ([Expire] + ([Cleanup] + ([Replay(t)] + []))));
    Before(s, Begin(t, fp), [Insert(t)] + ([Inspect(t)] + ([Expire] + ([Cleanup] + ([Replay(t)] + [])))));
  }

  /** How many steps of its own a claim has before it at most. */
  function StepsLeft(p: Phase): nat {
    match p
    case Inserting(_, attempt) => if attempt == 0 then 6 else 3
    case Inspecting(_, attempt) => if attempt == 0 then 5 else 2
    case Reclaiming(_, attempt) => if attempt == 0 then 4 else 1
    case Holding(_) => 2
    case Releasing(_) | Replaying(_) => 1
    case Done(_, _) => 0
  }

  predicate Steps(e: Event, t: nat) {
    !e.Begin? && !e.Expire? && !e.Cleanup? && !e.Crash? && e.request == t
  }

  lemma StepGetsFurther(s: State, e: Event, t: nat)
    requires CanHappen(s, e) && t in s.requests && !e.Crash?
    ensures t in Next(s, e).requests
    ensures var left := StepsLeft(Next(s, e).requests[t]);
            if Steps(e, t) then left < StepsLeft(s.requests[t]) else left == StepsLeft(s.requests[t])
  {
  }

  function OwnSteps(run: seq<Event>, t: nat): nat {
    if run == [] then 0 else (if Steps(run[0], t) then 1 else 0) + OwnSteps(run[1..], t)
  }

  ghost predicate NoCrash(run: seq<Event>) { forall i :: 0 <= i < |run| ==> !run[i].Crash? }

  /** No claim goes round for ever: whatever the others do, it takes at most six
      steps after its begin. */
  lemma {:induction false} AtMostSixSteps(s: State, run: seq<Event>, t: nat)
    requires Possible(s, run) && NoCrash(run) && t in s.requests
    ensures OwnSteps(run, t) <= StepsLeft(s.requests[t]) <= 6
    decreases |run|
  {
    if run != [] {
      StepGetsFurther(s, run[0], t);
      AtMostSixSteps(Next(s, run[0]), run[1..], t);
    }
  }

  /** A claim that expires before its work is done completes nothing. */
  lemma UndisturbedLate(s: State, t: nat, fp: Fingerprint, resource: Resource, told: bool)
    requires s.row.None? && t !in s.requests
    ensures var run := [Begin(t, fp)] + ([Insert(t)] + ([Expire] + ([Complete(t, resource, told)] + ([Release(t)] + []))));
            && Possible(s, run)
            && After(s, run) == s.(requests := s.requests[t := Done(fp, Failed)])
  {
    var s1 := Next(s, Begin(t, fp));
    var s2 := Next(s1, Insert(t));
    var s3 := Next(s2, Expire);
    var s4 := Next(s3, Complete(t, resource, told));
    Before(s4, Release(t), []);
    Before(s3, Complete(t, resource, told), [Release(t)] + []);
    Before(s2, Expire, [Complete(t, resource, told)] + ([Release(t)] + []));
    Before(s1, Insert(t), [Expire] + ([Complete(t, resource, told)] + ([Release(t)] + [])));
    Before(s, Begin(t, fp), [Insert(t)] + ([Expire] + ([Complete(t, resource, told)] + ([Release(t)] + []))));
  }

  // ----- every run, expiry included -----

  /** What the row has recorded in the course of a run. */
  function RecordedIn(s: State, run: seq<Event>): set<(Fingerprint, Resource)>
    requires Possible(s, run)
    decreases |run|
  {
    (if Completed(s.row) then {(s.row.value.fp, s.row.value.result.value)} else {})
    + if run == [] then {} else RecordedIn(Next(s, run[0]), run[1..])
  }

  ghost predicate OnlyOwn(s: State, recorded: set<(Fingerprint, Resource)>) {
    forall t :: t in s.requests && s.requests[t].Done? && s.requests[t].outcome.Replayed? ==>
      (s.requests[t].fp, s.requests[t].outcome.resource) in recorded
  }

  /** Even when rows expire: a replay is of something recorded under the
      request's own fingerprint. */
  lemma {:induction false} ReplaysAreOwn(s: State, run: seq<Event>, before: set<(Fingerprint, Resource)>)
    requires Possible(s, run) && OnlyOwn(s, before)
    ensures OnlyOwn(After(s, run), before + RecordedIn(s, run))
    decreases |run|
  {
    if run != [] {
      var now := if Completed(s.row) then before + {(s.row.value.fp, s.row.value.result.value)} else before;
      ReplaysStep(s, run[0], now);
      ReplaysAreOwn(Next(s, run[0]), run[1..], now);
      assert now + RecordedIn(Next(s, run[0]), run[1..]) == before + RecordedIn(s, run);
    }
  }

  lemma ReplaysStep(s: State, e: Event, now: set<(Fingerprint, Resource)>)
    requires CanHappen(s, e) && OnlyOwn(s, now)
    requires Completed(s.row) ==> (s.row.value.fp, s.row.value.result.value) in now
    ensures OnlyOwn(Next(s, e), now)
  {
  }

  /** A recorded result, and one that is told, is a change that was made. */
  ghost predicate Backed(s: State) {
    && (Completed(s.row) ==> s.row.value.result.value in s.changes)
    && (forall t :: t in s.requests ==> AnswerBacked(s.requests[t], s.changes))
  }

  predicate AnswerBacked(p: Phase, changes: seq<Resource>) {
    match p
    case Done(_, Succeeded(resource)) => resource in changes
    case Done(_, Replayed(resource)) => resource in changes
    case _ => true
  }

  lemma StepBacked(s: State, e: Event)
    requires Backed(s) && CanHappen(s, e)
    ensures Backed(Next(s, e)) && s.changes <= Next(s, e).changes
  {
  }

  /** Whatever expires and crashes: no change is ever undone, and no request is
      told of a resource that was not made. */
  lemma {:induction false} AnswersAreBacked(s: State, run: seq<Event>)
    requires Backed(s) && Possible(s, run)
    ensures Backed(After(s, run)) && s.changes <= After(s, run).changes
    decreases |run|
  {
    if run != [] {
      StepBacked(s, run[0]);
      AnswersAreBacked(Next(s, run[0]), run[1..]);
    }
  }

  /** The step deletes a completed row. */
  predicate Deletes(s: State, e: Event) {
    Completed(s.row) && (e.DeleteStale? || (e.Cleanup? && s.row.value.expired))
  }

  function Deletions(s: State, run: seq<Event>): nat
    requires Possible(s, run)
    decreases |run|
  {
    if run == [] then 0 else (if Deletes(s, run[0]) then 1 else 0) + Deletions(Next(s, run[0]), run[1..])
  }

  function One(b: bool): nat { if b then 1 else 0 }

  lemma StepBalances(s: State, e: Event)
    requires CanHappen(s, e)
    ensures |Next(s, e).changes| + One(Completed(s.row)) == |s.changes| + One(Deletes(s, e)) + One(Completed(Next(s, e).row))
  {
  }

  /** Every change is still recorded or its record was deleted, and nothing else
      is: the number of changes is the number of deleted completions and the one
      that stands. */
  lemma {:induction false} ChangesBalance(s: State, run: seq<Event>)
    requires Possible(s, run)
    ensures |After(s, run).changes| + One(Completed(s.row))
            == |s.changes| + Deletions(s, run) + One(Completed(After(s, run).row))
    decreases |run|
  {
    if run != [] {
      StepBalances(s, run[0]);
      ChangesBalance(Next(s, run[0]), run[1..]);
    }
  }

  /** After any run, a request that completes makes another change, not the
      first, exactly when a completed row has been deleted before it; the change
      is then the one after as many as were deleted. */
  lemma SecondChangeIff(run: seq<Event>, t: nat, resource: Resource, told: bool)
    requires Possible(UNUSED, run)
    requires var s := After(UNUSED, run); CanHappen(s, Complete(t, resource, told)) && Pending(s.row) && !s.row.value.expired
    ensures var n := Next(After(UNUSED, run), Complete(t, resource, told));
            && |n.changes| == Deletions(UNUSED, run) + 1
            && (|n.changes| >= 2 <==> Deletions(UNUSED, run) > 0)
  {
    ChangesBalance(UNUSED, run);
  }

  /** More than one change at the end of a run: two deleted completions, or one
      and a completion that stands. */
  lemma ManyChangesIff(run: seq<Event>)
    requires Possible(UNUSED, run)
    ensures |After(UNUSED, run).changes| >= 2
            <==> Deletions(UNUSED, run) + One(Completed(After(UNUSED, run).row)) >= 2
    ensures NoExpiry(run) ==> Deletions(UNUSED, run) == 0
  {
    ChangesBalance(UNUSED, run);
    if NoExpiry(run) {
      RunKeeps(UNUSED, run);
    }
  }


  lemma {:induction false} OneMore(s: State, run: seq<Event>, e: Event) returns (longer: seq<Event>)
    requires Possible(s, run) && CanHappen(After(s, run), e)
    ensures longer == run + [e] && Possible(s, longer) && After(s, longer) == Next(After(s, run), e)
    decreases |run|
  {
    longer := run + [e];
    if run != [] {
      var _ := OneMore(Next(s, run[0]), run[1..], e);
      assert longer[1..] == run[1..] + [e];
    } else {
      assert longer[1..] == [];
    }
  }

  /** The run that shows it: inspection deletes by scope and key alone. A reader that found the row
      expired, and deletes only after another request has reclaimed and
      completed it, lets the same request change the business twice. */
  lemma ExpiryAllowsTwo() returns (run: seq<Event>)
    ensures Possible(UNUSED, run) && After(UNUSED, run).changes == [20, 10] && Deletions(UNUSED, run) == 1
  {
    hide Deletions;
    run := OneMore(UNUSED, [], Begin(0, 7));
    run := OneMore(UNUSED, run, Insert(0));
    run := OneMore(UNUSED, run, Expire);
    run := OneMore(UNUSED, run, Begin(1, 7));
    run := OneMore(UNUSED, run, Insert(1));
    run := OneMore(UNUSED, run, Inspect(1));
    run := OneMore(UNUSED, run, Begin(2, 7));
    run := OneMore(UNUSED, run, Insert(2));
    run := OneMore(UNUSED, run, Inspect(2));
    run := OneMore(UNUSED, run, DeleteStale(2));
    run := OneMore(UNUSED, run, Insert(2));
    run := OneMore(UNUSED, run, Complete(2, 20, true));
    run := OneMore(UNUSED, run, DeleteStale(1));
    run := OneMore(UNUSED, run, Insert(1));
    run := OneMore(UNUSED, run, Complete(1, 10, true));
    ChangesBalance(UNUSED, run);
  }
}
