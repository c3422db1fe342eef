/** One-shot confirmation of an import preview (internal/transfer/transfer.go).

    A preview is a staged directory. Confirming or cancelling claims it by a
    rename; whoever fails before the import renames it back. Requests, sweeps,
    session revocation and process crashes interleave at every file-system and
    database step. */
module Transfer {

  /** Where the directory of one preview is, and what is left inside it:
      recursive removal takes the files one by one. */
  datatype Place = Stage | Consuming | Gone
  datatype Preview = Preview(place: Place, meta: bool, payloads: bool)

  datatype Outcome = Refused | Imported | CommitUnknown | Cancelled | Retryable

  /** How far a request has come. `Confirming` and `Cancelling` have passed the
      checks on the staged metadata; the phases after a claim hold it. */
  datatype Phase =
    | Confirming | Cancelling
    | Claimed | Verified | Failed | Releasing | Consumed(outcome: Outcome)
    | Discarding
    | Done(outcome: Outcome)

  predicate Holds(p: Phase) {
    p.Claimed? || p.Verified? || p.Failed? || p.Releasing? || p.Consumed? || p.Discarding?
  }

  /** A phase from which the import can still happen or be offered again. */
  predicate Undecided(p: Phase) { p.Claimed? || p.Verified? || p.Failed? || p.Releasing? }

  /** `commits` counts the imports the database has applied; `live` is whether
      the preview's session is unrevoked. */
  datatype State = State(preview: Preview, requests: map<nat, Phase>, live: bool, commits: nat)

  /** How an import transaction ends when it gets as far as its commit. */
  datatype Commit = Applied | AppliedUnknown | LostUnknown

  datatype Event =
    | ReadMeta(request: nat, confirm: bool)
    | Claim(request: nat)
    | Verify(request: nat)
    | Fail(request: nat)
    | Import(request: nat, commit: Commit)
    | StatStage(request: nat)
    | RenameBack(request: nat)
    | RemoveClaim(request: nat, removed: bool)
    | LoseMeta | LosePayloads | DropStage | DropConsuming
    | Revoke | Crash

  predicate CanHappen(s: State, e: Event) {
    match e
    case ReadMeta(t, _) => t !in s.requests && s.preview.place.Stage? && s.preview.meta
    case Claim(t) => t in s.requests && (s.requests[t].Confirming? || s.requests[t].Cancelling?)
    // The session was live when asked, the payloads were there and match the token.
    case Verify(t) => t in s.requests && s.requests[t].Claimed? && s.live && s.preview.place.Consuming? && s.preview.payloads
    case Fail(t) => t in s.requests && (s.requests[t].Claimed? || s.requests[t].Verified?)
    // The transaction asks for the session again before its first insert.
    case Import(t, commit) => t in s.requests && s.requests[t].Verified? && s.live
    case StatStage(t) => t in s.requests && s.requests[t].Failed?
    case RenameBack(t) => t in s.requests && s.requests[t].Releasing?
    case RemoveClaim(t, _) => t in s.requests && (s.requests[t].Consumed? || s.requests[t].Discarding?)
    case LoseMeta => true
    case LosePayloads => true
    case DropStage => true
    case DropConsuming => true
    case Revoke => true
    case Crash => true
  }

  function Placed(s: State, place: Place): State { s.(preview := s.preview.(place := place)) }

  function Next(s: State, e: Event): State
    requires CanHappen(s, e)
  {
    match e
    case ReadMeta(t, confirm) => s.(requests := s.requests[t := if confirm then Confirming else Cancelling])
    case Claim(t) =>
      if s.preview.place.Stage?
      then Placed(s, Consuming).(requests := s.requests[t := if s.requests[t].Confirming? then Claimed else Discarding])
      else s.(requests := s.requests[t := Done(Refused)])
    case Verify(t) => s.(requests := s.requests[t := Verified])
    case Fail(t) => s.(requests := s.requests[t := Failed])
    case Import(t, commit) =>
      State(s.preview, s.requests[t := Consumed(if commit.Applied? then Imported else CommitUnknown)], s.live,
            if commit.LostUnknown? then s.commits else s.commits + 1)
    case StatStage(t) => s.(requests := s.requests[t := if s.preview.place.Stage? then Done(Retryable) else Releasing])
    case RenameBack(t) =>
      (if s.preview.place.Consuming? then Placed(s, Stage) else s).(requests := s.requests[t := Done(Retryable)])
    case RemoveClaim(t, removed) =>
      (if s.preview.place.Consuming? && removed then Placed(s, Gone) else s)
        .(requests := s.requests[t := Done(if s.requests[t].Consumed? then s.requests[t].outcome else Cancelled)])
    case LoseMeta => s.(preview := s.preview.(meta := false))
    case LosePayloads => s.(preview := s.preview.(payloads := false))
    case DropStage => if s.preview.place.Stage? then Placed(s, Gone) else s
    case DropConsuming => if s.preview.place.Consuming? then Placed(s, Gone) else s
    case Revoke => s.(live := false)
    case Crash => s.(requests := map[])
  }

  ghost predicate Possible(s: State, run: seq<Event>)
    decreases |run|
  {
    run != [] ==> CanHappen(s, run[0]) && Possible(Next(s, run[0]), run[1..])
  }

  function After(s: State, run: seq<Event>): State
    requires Possible(s, run)
    decreases |run|
  {
    if run == [] then s else After(Next(s, run[0]), run[1..])
  }

  const STAGED := State(Preview(Stage, true, true), map[], true, 0)

  // ----- what every interleaving keeps -----

  /** One request at most holds the claim, and then the directory is not
      staged. Once an import has been applied, or a cancel has claimed, the
      directory is never staged again. */
  ghost predicate Good(s: State) { OneHolder(s) && OneImport(s) && Honest(s) }

  ghost predicate OneHolder(s: State) {
    && (forall t, u :: t in s.requests && u in s.requests && Holds(s.requests[t]) && Holds(s.requests[u]) ==> t == u)
    && (forall t :: t in s.requests && Holds(s.requests[t]) ==> !s.preview.place.Stage?)
  }

  ghost predicate OneImport(s: State) {
    && s.commits <= 1
    && (s.commits == 1 ==> Decided(s))
    && (forall t :: t in s.requests && Final(s.requests[t]) ==> Decided(s))
    && (forall t :: t in s.requests && Abandoned(s.requests[t]) ==> s.commits == 0)
  }

  /** No request can bring the import about any more. */
  ghost predicate Decided(s: State) {
    !s.preview.place.Stage? && forall t :: t in s.requests ==> !Undecided(s.requests[t])
  }

  /** Answers after which nothing may be imported by a later request. */
  predicate Final(p: Phase) {
    p.Consumed? || p.Discarding? || (p.Done? && (p.outcome.Imported? || p.outcome.CommitUnknown? || p.outcome.Cancelled?))
  }

  predicate Abandoned(p: Phase) { p.Discarding? || (p.Done? && p.outcome.Cancelled?) }

  /** Only a request that is consuming answers Imported or CommitUnknown. */
  ghost predicate Honest(s: State) {
    && (forall t :: t in s.requests && (s.requests[t] == Consumed(Imported) || s.requests[t] == Done(Imported)) ==> s.commits == 1)
    && (forall t :: t in s.requests && s.requests[t].Consumed? ==> s.requests[t].outcome.Imported? || s.requests[t].outcome.CommitUnknown?)
  }

  lemma StepHolder(s: State, e: Event)
    requires Good(s) && CanHappen(s, e)
    ensures OneHolder(Next(s, e))
  {
    hide OneImport, Honest;
  }

  /** Once decided, decided for good; an import and a claimed cancel decide. */
  lemma StepDecided(s: State, e: Event)
    requires Good(s) && CanHappen(s, e)
    ensures Decided(s) ==> Decided(Next(s, e)) && Next(s, e).commits == s.commits
    ensures e.Import? || (e.Claim? && s.requests[e.request].Cancelling? && s.preview.place.Stage?) ==>
              Decided(Next(s, e)) && !Decided(s)
  {
    hide OneImport, Honest;
  }

  lemma StepImport(s: State, e: Event)
    requires Good(s) && CanHappen(s, e)
    ensures OneImport(Next(s, e))
  {
    StepDecided(s, e);
    hide Decided, OneHolder;
  }

  lemma StepKeeps(s: State, e: Event)
    requires Good(s) && CanHappen(s, e)
    ensures Good(Next(s, e))
  {
    StepHolder(s, e);
    StepImport(s, e);
    hide OneImport, OneHolder;
  }

  lemma {:induction false} RunKeeps(s: State, run: seq<Event>)
    requires Good(s) && Possible(s, run)
    ensures Good(After(s, run))
    decreases |run|
  {
    if run != [] {
      StepKeeps(s, run[0]);
      RunKeeps(Next(s, run[0]), run[1..]);
    }
  }

  /** Each preview leads to at most one applied import, and a request that
      answers Imported is that one. */
  lemma AtMostOneImport(run: seq<Event>)
    requires Possible(STAGED, run)
    ensures After(STAGED, run).commits <= 1
    ensures forall t :: t in After(STAGED, run).requests && After(STAGED, run).requests[t] == Done(Imported)
              ==> After(STAGED, run).commits == 1
    ensures (forall t :: t in After(STAGED, run).requests && After(STAGED, run).requests[t] == Done(Cancelled)
              ==> After(STAGED, run).commits == 0)
  {
    RunKeeps(STAGED, run);
  }

  /** From a state where the import is decided, or the session is revoked, no
      continuation applies one. */
  lemma {:induction false} NothingMoreApplied(s: State, run: seq<Event>)
    requires Possible(s, run) && (Decided(s) || !s.live)
    ensures After(s, run).commits == s.commits
    decreases |run|
  {
    if run != [] {
      NothingMoreApplied(Next(s, run[0]), run[1..]);
    }
  }

  /** After revocation, after a claimed cancel, after a crash that left the
      claim behind, after a sweep of the staged preview: what had been applied by then is all there will be. */
  lemma NoImportAfter(s: State, run: seq<Event>, e: Event)
    requires Good(s) && CanHappen(s, e) && Possible(Next(s, e), run)
    requires e.Revoke? || (e.Claim? && s.requests[e.request].Cancelling? && s.preview.place.Stage?)
             || (e.Crash? && !s.preview.place.Stage?) || (e.DropStage? && s.preview.place.Stage?)
    ensures After(Next(s, e), run).commits == s.commits
  {
    StepKeeps(s, e);
    NothingMoreApplied(Next(s, e), run);
  }

  ghost predicate NoneVerified(s: State) { forall t :: t in s.requests ==> !s.requests[t].Verified? }

  lemma StepLost(s: State, e: Event)
    requires CanHappen(s, e)
    ensures var n := Next(s, e);
            && (s.preview.place.Gone? ==> n.preview.place.Gone?)
            && (!s.preview.meta ==> !n.preview.meta && n.requests.Keys <= s.requests.Keys)
            && (!s.preview.payloads ==> !n.preview.payloads)
            && (!s.preview.payloads && NoneVerified(s) ==> NoneVerified(n) && n.commits == s.commits)
  {
  }

  lemma {:induction false} StaysLost(s: State, run: seq<Event>)
    requires Possible(s, run)
    ensures var n := After(s, run);
            && (s.preview.place.Gone? ==> n.preview.place.Gone?)
            && (!s.preview.meta ==> !n.preview.meta && n.requests.Keys <= s.requests.Keys)
            && (!s.preview.payloads ==> !n.preview.payloads)
            && (!s.preview.payloads && NoneVerified(s) ==> n.commits == s.commits)
    decreases |run|
  {
    if run != [] {
      StepLost(s, run[0]);
      StaysLost(Next(s, run[0]), run[1..]);
      hide Next, CanHappen, NoneVerified;
    }
  }

  /** A swept directory is gone for good; without its metadata no request gets
      past reading it; without the payloads only a request that has read them can
      still import. */
  lemma LossesLast(s: State, e: Event, run: seq<Event>)
    requires CanHappen(s, e) && Possible(Next(s, e), run)
    ensures var n := After(Next(s, e), run);
            && (e.DropStage? && s.preview.place.Stage? ==> n.preview.place == Gone)
            && (e.DropConsuming? && s.preview.place.Consuming? ==> n.preview.place == Gone)
            && (e.LoseMeta? ==> !n.preview.meta && n.requests.Keys <= s.requests.Keys)
            && (e.LosePayloads? ==> !n.preview.payloads)
            && (e.LosePayloads? && NoneVerified(s) ==> n.commits == s.commits)
  {
    StaysLost(Next(s, e), run);
  }

  /** A failure before the commit gives the preview back whole, if nothing
      removed it meanwhile: the same token can be confirmed again. */
  lemma FailureIsRetryable(s: State, t: nat)
    requires Good(s) && CanHappen(s, Fail(t)) && s.preview.place.Consuming?
    ensures var failed := Next(s, Fail(t));
            && CanHappen(failed, StatStage(t))
            && var released := Next(failed, StatStage(t));
               && CanHappen(released, RenameBack(t))
               && var n := Next(released, RenameBack(t));
                  && n.preview == s.preview.(place := Stage) && n.commits == 0
                  && (forall u :: u in n.requests ==> !Holds(n.requests[u]))
  {
  }

  // ----- a request by itself -----

  lemma Before(s: State, e: Event, rest: seq<Event>)
    requires CanHappen(s, e) && Possible(Next(s, e), rest)
    ensures Possible(s, [e] + rest) && After(s, [e] + rest) == After(Next(s, e), rest)
  {
    assert ([e] + rest)[1..] == rest;
  }

  function ConfirmRun(t: nat, commit: Commit, removed: bool): seq<Event> {
    [ReadMeta(t, true)] + ([Claim(t)] + ([Verify(t)] + ([Import(t, commit)] + ([RemoveClaim(t, removed)] + []))))
  }

  /** Nobody interferes: a whole preview of a live session is imported once and
      the request is told so; if the commit's fate is unknown, it is told that. */
  lemma UndisturbedConfirm(s: State, t: nat, commit: Commit, removed: bool)
    requires Good(s) && t !in s.requests && s.preview == Preview(Stage, true, true) && s.live
    ensures s.commits == 0 && Possible(s, ConfirmRun(t, commit, removed))
    ensures var n := After(s, ConfirmRun(t, commit, removed));
            && n.requests == s.requests[t := Done(if commit == Applied then Imported else CommitUnknown)]
            && n.commits == (if commit == LostUnknown then 0 else 1)
            && n.preview.place == (if removed then Gone else Consuming)
            && n.live
  {
    assert s.commits == 0;
    hide Good;
    var s1 := Next(s, ReadMeta(t, true));
    var s2 := Next(s1, Claim(t));
    var s3 := Next(s2, Verify(t));
    var s4 := Next(s3, Import(t, commit));
    Before(s4, RemoveClaim(t, removed), []);
    Before(s3, Import(t, commit), [RemoveClaim(t, removed)] + []);
    Before(s2, Verify(t), [Import(t, commit)] + ([RemoveClaim(t, removed)] + []));
    Before(s1, Claim(t), [Verify(t)] + ([Import(t, commit)] + ([RemoveClaim(t, removed)] + [])));
    Before(s, ReadMeta(t, true), [Claim(t)] + ([Verify(t)] + ([Import(t, commit)] + ([RemoveClaim(t, removed)] + []))));
  }

  function CancelRun(t: nat, removed: bool): seq<Event> {
    [ReadMeta(t, false)] + ([Claim(t)] + ([RemoveClaim(t, removed)] + []))
  }

  /** An undisturbed cancel discards the preview, and nothing is imported. */
  lemma UndisturbedCancel(s: State, t: nat, removed: bool)
    requires Good(s) && t !in s.requests && s.preview.place == Stage && s.preview.meta
    ensures Possible(s, CancelRun(t, removed))
    ensures var n := After(s, CancelRun(t, removed));
            && n.requests == s.requests[t := Done(Cancelled)] && n.commits == 0
            && n.preview.place == (if removed then Gone else Consuming)
  {
    var s1 := Next(s, ReadMeta(t, false));
    var s2 := Next(s1, Claim(t));
    Before(s2, RemoveClaim(t, removed), []);
    Before(s1, Claim(t), [RemoveClaim(t, removed)] + []);
    Before(s, ReadMeta(t, false), [Claim(t)] + ([RemoveClaim(t, removed)] + []));
  }

  // ----- what a request is answered, over every run -----

  /** The event happened, and the process has not crashed since. */
  predicate Did(run: seq<Event>, e: Event)
    decreases |run|
  {
    run != [] && (run[|run| - 1] == e || (!run[|run| - 1].Crash? && Did(run[..|run| - 1], e)))
  }

  /** The request tried its claim, without a crash since, when the directory was
      or was not staged. */
  ghost predicate Tried(s: State, run: seq<Event>, t: nat, staged: bool)
    requires Possible(s, run)
    decreases |run|
  {
    run != [] && (Shorter(s, run);
      var last, before := run[|run| - 1], run[..|run| - 1];
      (last == Claim(t) && After(s, before).preview.place.Stage? == staged) || (!last.Crash? && Tried(s, before, t, staged)))
  }

  lemma {:induction false} Shorter(s: State, run: seq<Event>)
    requires Possible(s, run) && run != []
    ensures Possible(s, run[..|run| - 1])
    ensures CanHappen(After(s, run[..|run| - 1]), run[|run| - 1])
    ensures After(s, run) == Next(After(s, run[..|run| - 1]), run[|run| - 1])
    decreases |run|
  {
    if |run| > 1 {
      Shorter(Next(s, run[0]), run[1..]);
      assert run[..|run| - 1][1..] == run[1..][..|run| - 2];
    }
  }

  /** What a request has done since the last crash. */
  datatype Past = Past(confirms: bool, cancels: bool, claimed: bool, missed: bool, failed: bool, applied: bool, unknown: bool)

  ghost function PastOf(s: State, run: seq<Event>, t: nat): Past
    requires Possible(s, run)
  {
    Past(Did(run, ReadMeta(t, true)), Did(run, ReadMeta(t, false)), Tried(s, run, t, true), Tried(s, run, t, false),
         Did(run, Fail(t)), Did(run, Import(t, Applied)), Did(run, Import(t, AppliedUnknown)) || Did(run, Import(t, LostUnknown)))
  }

  /** How far a request is, told by what it did. */
  predicate Tells(s: State, t: nat, past: Past) {
    if t !in s.requests then past == Past(false, false, false, false, false, false, false)
    else
      match s.requests[t]
      case Confirming => past == Past(true, false, false, false, false, false, false)
      case Cancelling => past == Past(false, true, false, false, false, false, false)
      case Claimed | Verified => past == Past(true, false, true, false, false, false, false)
      case Failed | Releasing | Done(Retryable) => past == Past(true, false, true, false, true, false, false)
      case Consumed(Imported) | Done(Imported) => past == Past(true, false, true, false, false, true, false)
      case Consumed(CommitUnknown) | Done(CommitUnknown) => past == Past(true, false, true, false, false, false, true)
      case Discarding | Done(Cancelled) => past == Past(false, true, true, false, false, false, false)
      case Done(Refused) => past == Past(!past.cancels, past.cancels, false, true, false, false, false)
      case Consumed(_) => false
  }

  function Onward(past: Past, e: Event, t: nat, staged: bool): Past {
    match e
    case Crash => Past(false, false, false, false, false, false, false)
    case ReadMeta(u, confirm) => if u != t then past else if confirm then past.(confirms := true) else past.(cancels := true)
    case Claim(u) => if u != t then past else if staged then past.(claimed := true) else past.(missed := true)
    case Fail(u) => if u != t then past else past.(failed := true)
    case Import(u, commit) => if u != t then past else if commit.Applied? then past.(applied := true) else past.(unknown := true)
    case _ => past
  }

  function AppliedIn(run: seq<Event>): nat {
    if run == [] then 0
    else (if run[0].Import? && !run[0].commit.LostUnknown? then 1 else 0) + AppliedIn(run[1..])
  }

  /** What the database has applied is what the commits that went through made
      of it, and so one of them in any run. */
  lemma {:induction false} CommitsCounted(s: State, run: seq<Event>)
    requires Good(s) && Possible(s, run)
    ensures After(s, run).commits == s.commits + AppliedIn(run) <= 1
    decreases |run|
  {
    if run != [] {
      StepKeeps(s, run[0]);
      CommitsCounted(Next(s, run[0]), run[1..]);
    }
    hide Good;
  }

  /** The request found its session live and the payloads there, without a crash
      since. */
  ghost predicate Checked(s: State, run: seq<Event>, t: nat)
    requires Possible(s, run)
    decreases |run|
  {
    run != [] && (Shorter(s, run);
      var last, before := run[|run| - 1], run[..|run| - 1];
      || (last == Verify(t) && After(s, before).live && After(s, before).preview.payloads)
      || (!last.Crash? && Checked(s, before, t)))
  }

  /** Whatever is committed, and whatever a request is told of a commit, was
      checked before by that request. */
  lemma {:induction false} WhatIsImportedWasChecked(s: State, run: seq<Event>, t: nat)
    requires Possible(s, run) && s.requests == map[]
    ensures var now := After(s, run);
            t in now.requests && (now.requests[t].Verified? || Answer(now.requests[t])) ==> Checked(s, run, t)
    decreases |run|
  {
    if run != [] {
      Shorter(s, run);
      WhatIsImportedWasChecked(s, run[..|run| - 1], t);
      CheckedStep(After(s, run[..|run| - 1]), run[|run| - 1], t);
      hide Possible, After, Next, CanHappen;
    }
  }

  predicate Answer(p: Phase) {
    p.Consumed? || (p.Done? && (p.outcome.Imported? || p.outcome.CommitUnknown?))
  }

  lemma CheckedStep(s: State, e: Event, t: nat)
    requires CanHappen(s, e)
    ensures var now := Next(s, e);
            t in now.requests && (now.requests[t].Verified? || Answer(now.requests[t])) ==>
              || (e == Verify(t) && s.live && s.preview.payloads)
              || (!e.Crash? && t in s.requests && (s.requests[t].Verified? || Answer(s.requests[t])))
  {
  }

  lemma DidLast(run: seq<Event>, e: Event)
    requires run != []
    ensures Did(run, e) <==> run[|run| - 1] == e || (!run[|run| - 1].Crash? && Did(run[..|run| - 1], e))
  {
  }

  lemma TriedLast(s: State, run: seq<Event>, t: nat, staged: bool)
    requires Possible(s, run) && run != [] && Possible(s, run[..|run| - 1])
    ensures var last, before := run[|run| - 1], run[..|run| - 1];
            Tried(s, run, t, staged) <==> (last == Claim(t) && After(s, before).preview.place.Stage? == staged)
                                          || (!last.Crash? && Tried(s, before, t, staged))
  {
    hide Possible, After, CanHappen;
  }

  lemma OnwardIs(was: Past, now: Past, e: Event, t: nat, staged: bool)
    requires now.confirms <==> e == ReadMeta(t, true) || (!e.Crash? && was.confirms)
    requires now.cancels <==> e == ReadMeta(t, false) || (!e.Crash? && was.cancels)
    requires now.claimed <==> (e == Claim(t) && staged) || (!e.Crash? && was.claimed)
    requires now.missed <==> (e == Claim(t) && !staged) || (!e.Crash? && was.missed)
    requires now.failed <==> e == Fail(t) || (!e.Crash? && was.failed)
    requires now.applied <==> e == Import(t, Applied) || (!e.Crash? && was.applied)
    requires now.unknown <==> e == Import(t, AppliedUnknown) || e == Import(t, LostUnknown) || (!e.Crash? && was.unknown)
    ensures now == Onward(was, e, t, staged)
  {
  }

  lemma PastGrows(s: State, run: seq<Event>, t: nat)
    requires Possible(s, run) && run != [] && Possible(s, run[..|run| - 1])
    ensures var before := run[..|run| - 1];
            PastOf(s, run, t) == Onward(PastOf(s, before, t), run[|run| - 1], t, After(s, before).preview.place.Stage?)
  {
    var last, before := run[|run| - 1], run[..|run| - 1];
    DidLast(run, ReadMeta(t, true));
    DidLast(run, ReadMeta(t, false));
    DidLast(run, Fail(t));
    DidLast(run, Import(t, Applied));
    DidLast(run, Import(t, AppliedUnknown));
    DidLast(run, Import(t, LostUnknown));
    TriedLast(s, run, t, true);
    TriedLast(s, run, t, false);
    hide Possible, After, Did, Tried, CanHappen, Onward;
    OnwardIs(PastOf(s, before, t), PastOf(s, run, t), last, t, After(s, before).preview.place.Stage?);
  }

  /** An event is a step of one request, or of none. */
  predicate Steps(e: Event, t: nat) {
    !e.LoseMeta? && !e.LosePayloads? && !e.DropStage? && !e.DropConsuming? && !e.Revoke? && !e.Crash? && e.request == t
  }

  lemma OthersStep(s: State, e: Event, t: nat)
    requires CanHappen(s, e) && !e.Crash? && !Steps(e, t)
    ensures t in Next(s, e).requests <==> t in s.requests
    ensures t in s.requests ==> Next(s, e).requests[t] == s.requests[t]
  {
  }

  lemma TellsStep(s: State, e: Event, t: nat, past: Past)
    requires CanHappen(s, e) && Tells(s, t, past)
    ensures Tells(Next(s, e), t, Onward(past, e, t, s.preview.place.Stage?))
  {
    if !e.Crash? && !Steps(e, t) {
      OthersStep(s, e, t);
      assert Onward(past, e, t, s.preview.place.Stage?) == past;
      hide Next, CanHappen, Onward, Steps;
    }
  }

  lemma {:induction false} PastTells(s: State, run: seq<Event>, t: nat)
    requires Possible(s, run) && s.requests == map[]
    ensures Tells(After(s, run), t, PastOf(s, run, t))
    decreases |run|
  {
    if run != [] {
      Shorter(s, run);
      var before := run[..|run| - 1];
      PastTells(s, before, t);
      PastGrows(s, run, t);
      TellsStep(After(s, before), run[|run| - 1], t, PastOf(s, before, t));
      hide *;
    }
  }

  /** Whatever else goes on, a finished request is answered exactly for what it
      did itself: imported for a commit that was applied, unknown for one whose
      end is not known, refused for a claim that found nothing staged,
      cancelled for a cancel that claimed, retryable for a failure. */
  lemma AnsweredForWhatItDid(s: State, run: seq<Event>, t: nat)
    requires Possible(s, run) && s.requests == map[]
    ensures var now := After(s, run);
            t in now.requests && now.requests[t].Done? ==>
              var answer := now.requests[t].outcome;
              && (answer == Imported <==> Did(run, Import(t, Applied)))
              && (answer == CommitUnknown <==> Did(run, Import(t, AppliedUnknown)) || Did(run, Import(t, LostUnknown)))
              && (answer == Refused <==> Tried(s, run, t, false))
              && (answer == Cancelled <==> Did(run, ReadMeta(t, false)) && Tried(s, run, t, true))
              && (answer == Retryable <==> Did(run, Fail(t)))
  {
    PastTells(s, run, t);
  }
}
