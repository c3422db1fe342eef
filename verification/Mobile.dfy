/** The mobile session (mobile/src/auth/session.ts) over its HTTP client
    (mobile/src/api/client.ts). JavaScript runs each stretch between awaits
    without interruption, so each such stretch is one method here, and any
    order of calls is an interleaving. */
module Mobile {
  import opened Wrappers

  type Token = nat
  type Account = nat

  datatype Phase = Unconfigured | SignedOut | Authenticating | MustChange | ConfirmingChange | Authenticated

  datatype Kind = Preflight | Login | ChangePassword | Confirm | Activity | Logout | Screen

  /** What a server sends, or what became of the attempt: the token of the body,
      the token of the header if there is one, and the account. */
  datatype Response =
    | Success(csrf: Token, rotated: Option<Token>, user: Account, mustChange: bool)
    | HttpError(status: nat)
    | NetworkError
    | Aborted

  /** One request: the generation and the client it began under, whether it has
      been cancelled, and its result once the client is through with it. */
  datatype Request = Request(kind: Kind, generation: nat, client: nat, aborted: bool, result: Option<Response>)

  /** Everything a response could change for the user. */
  datatype Visible = Visible(
    phase: Phase, principal: Option<Account>, sessionCsrf: Option<Token>, preauth: Option<Token>,
    jar: Option<Token>, client: Option<nat>)

  predicate SignedIn(p: Phase) { p.MustChange? || p.ConfirmingChange? || p.Authenticated? }

  /** A session is over: nothing is left of it. Where none is shown nothing
      happens. */
  function Ended(v: Visible): Visible {
    if NoSession(v.phase) then v else Visible(SignedOut, None, None, None, None, v.client)
  }

  /** The outcomes that end the session when an action goes on. */
  predicate EndsOn(kind: Kind, r: Response) {
    kind.Logout? || ((kind.ChangePassword? || kind.Confirm? || kind.Activity?) && r == HttpError(401))
  }

  function SignedInPhase(mustChange: bool): Phase { if mustChange then MustChange else Authenticated }

  /** What is shown once the rest of an action has run on its response. */
  function Finished(v: Visible, kind: Kind, r: Response): Visible {
    if EndsOn(kind, r) then Ended(v)
    else if kind.Login? && !r.Success? then
      v.(phase := SignedOut, preauth := if r == HttpError(403) then None else v.preauth)
    else if !r.Success? then v
    else
      match kind
      case Preflight => v.(preauth := Some(r.csrf))
      case Login => Visible(SignedInPhase(r.mustChange), Some(r.user), Some(r.csrf), None, v.jar, v.client)
      case ChangePassword => v.(phase := ConfirmingChange, sessionCsrf := if r.rotated.Some? then r.rotated else v.sessionCsrf)
      case Confirm => v.(phase := SignedInPhase(r.mustChange), principal := Some(r.user), sessionCsrf := Some(r.csrf))
      case _ => v
  }

  function One(b: bool): nat { if b then 1 else 0 }

  predicate EndsSession(kind: Kind, r: Response) { r == HttpError(401) && !kind.Login? }

  /** The client calls `onUnauthorized`, and there is a session to end. */
  predicate Unauthorised(v: Visible, kind: Kind, r: Response) {
    EndsSession(kind, r) && v.sessionCsrf.Some? && !NoSession(v.phase)
  }

  /** What is shown once the client has taken a response in. */
  function TakenIn(v: Visible, kind: Kind, r: Response, cookie: Option<Token>): Visible {
    if Unauthorised(v, kind, r) then Ended(v)
    else if r.NetworkError? || cookie.None? then v
    else v.(jar := cookie)
  }

  function AllAborted(requests: map<nat, Request>): map<nat, Request> {
    map r | r in requests :: if requests[r].result.None? then requests[r].(aborted := true) else requests[r]
  }

  /** No request that is still there has changed what it is or the generation it
      began under, or lost a result. */
  ghost predicate StampsKept(before: map<nat, Request>, after: map<nat, Request>) {
    forall r :: r in before && r in after ==>
      && after[r].kind == before[r].kind && after[r].generation == before[r].generation
      && (before[r].result.Some? ==> after[r].result == before[r].result)
  }

  lemma KeptTwice(a: map<nat, Request>, b: map<nat, Request>, c: map<nat, Request>)
    requires a.Keys == b.Keys && StampsKept(a, b) && StampsKept(b, c)
    ensures StampsKept(a, c)
  {
  }

  predicate NoSession(p: Phase) { p.SignedOut? || p.Unconfigured? }

  class SessionController {
    var phase: Phase
    var principal: Option<Account>
    var sessionCsrf: Option<Token>
    var preauth: Option<Token>
    var confirmFailed: bool
    /** The client in use, and the session cookie in its jar. */
    var client: Option<nat>
    var clients: nat
    var jar: Option<Token>
    var generation: nat
    var requests: map<nat, Request>
    /** How many sign-outs, server switches and invalidations there have been. */
    ghost var wipes: nat

    ghost function Shown(): Visible
      reads this
    {
      Visible(phase, principal, sessionCsrf, preauth, jar, client)
    }

    /** A request of the present generation belongs to the client in use; one
        that can still deliver cookies is of the present generation. */
    ghost predicate ValidRequests()
      reads this
    {
      && (client.Some? ==> client.value < clients)
      && (forall r :: r in requests ==> requests[r].generation <= generation)
      && (forall r :: r in requests && requests[r].generation == generation ==> client == Some(requests[r].client))
      && (forall r :: r in requests && requests[r].result.None? && !requests[r].aborted ==> requests[r].generation == generation)
      && (forall r :: r in requests && requests[r].generation == generation && requests[r].kind.ChangePassword? ==> sessionCsrf.Some?)
    }

    ghost predicate Valid()
      reads this
    {
      && ValidRequests()
      && wipes == generation
      && (SignedIn(phase) ==> client.Some? && principal.Some? && sessionCsrf.Some?)
      && (sessionCsrf.Some? <==> principal.Some?)
      && (sessionCsrf.Some? || preauth.Some? ==> client.Some?)
      && (phase.Unconfigured? <==> client.None?)
    }

    constructor ()
      ensures Valid() && phase == Unconfigured && requests == map[] && wipes == 0
    {
      phase, principal, sessionCsrf, preauth, confirmFailed := Unconfigured, None, None, None, false;
      client, clients, jar, generation, requests, wipes := None, 0, None, 0, map[], 0;
    }

    /** Cancels everything in flight; what has not come through yet never will. */
    method BumpGeneration()
      requires Valid()
      modifies this`generation, this`requests
      ensures generation == old(generation) + 1 && requests == AllAborted(old(requests))
      ensures requests.Keys == old(requests).Keys && StampsKept(old(requests), requests)
      ensures forall r :: r in requests ==> requests[r].generation < generation && (requests[r].result.None? ==> requests[r].aborted)
    {
      generation := generation + 1;
      requests := AllAborted(requests);
    }

    /** Forgets the session: cookies, tokens, account and everything in flight. */
    method Wipe()
      requires Valid()
      modifies this`generation, this`requests, this`wipes, this`jar, this`preauth, this`sessionCsrf, this`principal, this`confirmFailed
      ensures wipes == old(wipes) + 1 == generation
      ensures jar == None && preauth == None && sessionCsrf == None && principal == None
      ensures requests == AllAborted(old(requests))
      ensures requests.Keys == old(requests).Keys && StampsKept(old(requests), requests)
      ensures forall r :: r in requests ==> requests[r].result == old(requests)[r].result
      ensures forall r :: r in requests && old(requests)[r].aborted ==> requests[r].aborted
      ensures forall r :: r in requests ==> requests[r].generation < generation && (requests[r].result.None? ==> requests[r].aborted)
    {
      BumpGeneration();
      wipes := wipes + 1;
      jar, preauth, sessionCsrf, principal, confirmFailed := None, None, None, None, false;
    }

    /** `setServerUrl`: a new client with an empty jar, or none at all. */
    method SetServerUrl(valid: bool)
      requires Valid()
      modifies this
      ensures Valid() && wipes == old(wipes) + 1
      ensures principal == None && sessionCsrf == None && preauth == None && jar == None
      ensures phase == if valid then SignedOut else Unconfigured
      ensures client.Some? <==> valid
      ensures valid ==> old(client) != client
      ensures requests == AllAborted(old(requests)) && StampsKept(old(requests), requests)
      ensures requests.Keys == old(requests).Keys
    {
      hide AllAborted, StampsKept;
      Wipe();
      if !valid {
        client, phase := None, Unconfigured;
        return;
      }
      client := Some(clients);
      clients := clients + 1;
      phase := SignedOut;
    }

    /** `invalidateLocally`. It does nothing in a phase that has no session. */
    method InvalidateLocally()
      requires Valid()
      modifies this
      ensures Valid() && client == old(client) && clients == old(clients)
      ensures requests.Keys == old(requests).Keys && StampsKept(old(requests), requests)
      ensures forall r :: r in requests ==> requests[r].result == old(requests)[r].result
      ensures forall r :: r in requests && old(requests)[r].aborted ==> requests[r].aborted
      ensures Shown() == Ended(old(Shown())) && wipes == old(wipes) + One(!NoSession(old(phase)))
      ensures requests == if NoSession(old(phase)) then old(requests) else AllAborted(old(requests))
    {
      if NoSession(phase) {
        return;
      }
      hide AllAborted, StampsKept;
      Wipe();
      phase := if client.Some? then SignedOut else Unconfigured;
    }

    /** The start of an action, up to its first await. */
    method Begin(id: nat, kind: Kind) returns (started: bool)
      requires Valid() && id !in requests
      modifies this`requests, this`phase
      ensures Valid()
      ensures started <==> && client.Some? && !kind.Logout?
                           && (kind.Login? ==> preauth.Some?)
                           && (kind.ChangePassword? || kind.Confirm? ==> sessionCsrf.Some?)
                           && (kind.Activity? ==> old(phase).Authenticated?)
      ensures phase == if started && kind.Login? then Authenticating else old(phase)
      ensures requests == if started then old(requests)[id := Request(kind, generation, client.value, false, None)] else old(requests)
    {
      if client.None? || kind.Logout? {
        return false;
      }
      if kind.Login? && preauth.None? {
        return false;
      }
      if (kind.ChangePassword? || kind.Confirm?) && sessionCsrf.None? {
        return false;
      }
      if kind.Activity? && !phase.Authenticated? {
        return false;
      }
      if kind.Login? {
        phase := Authenticating;
      }
      requests := requests[id := Request(kind, generation, client.value, false, None)];
      return true;
    }

    /** `signOut` up to the logout request, or to its end when there is nothing to
        revoke. */
    method BeginSignOut(id: nat) returns (started: bool)
      requires Valid() && id !in requests
      modifies this
      ensures Valid() && wipes > old(wipes) && client == old(client)
      ensures started <==> old(sessionCsrf).Some?
      ensures started ==> Shown() == old(Shown())
      ensures started ==> id in requests && requests[id] == Request(Logout, generation, client.value, false, None)
      ensures !started ==> Shown() == Ended(old(Shown()))
      ensures requests.Keys == old(requests).Keys + (if started then {id} else {})
      ensures StampsKept(old(requests), requests)
      ensures forall r :: r in old(requests) && r in requests ==> requests[r] == AllAborted(old(requests))[r]
    {
      BumpGeneration();
      wipes := wipes + 1;
      if client.Some? && sessionCsrf.Some? {
        requests := requests[id := Request(Logout, generation, client.value, false, None)];
        return true;
      }
      InvalidateLocally();
      return false;
    }

    /** The client is through with a request (`ApiClient.request`): unless it was
        cancelled, its cookies are recorded, and a 401 to anything but a login
        ends the session. */
    method Arrive(id: nat, response: Response, cookie: Option<Token>, timedOut: bool)
      requires Valid() && id in requests && requests[id].result.None? && !response.Aborted?
      modifies this
      ensures Valid()
      ensures requests.Keys == old(requests).Keys && requests[id].result.Some?
      ensures client == old(client)
      ensures StampsKept(old(requests), requests)
      ensures forall r :: r in requests && r != id ==> requests[r].result == old(requests)[r].result
      ensures forall r :: r in requests && old(requests)[r].aborted ==> requests[r].aborted
      // A response that was overtaken was cancelled, and a cancelled one changes
      // nothing.
      ensures old(requests)[id].generation != old(generation) ==> old(requests)[id].aborted
      ensures var was := old(requests)[id];
              if was.aborted || timedOut
              then && Shown() == old(Shown()) && wipes == old(wipes)
                   && requests[id].result == Some(if timedOut then NetworkError else Aborted)
              else && Shown() == TakenIn(old(Shown()), was.kind, response, cookie)
                   && wipes == old(wipes) + One(Unauthorised(old(Shown()), was.kind, response))
                   && requests[id].result == Some(response)
      // In plain terms: a 401 to anything but a login signs a signed-in user out,
      // and otherwise only the cookie is taken in.
      ensures var was := old(requests)[id];
              !was.aborted && !timedOut ==>
                if && response == HttpError(401) && !was.kind.Login?
                   && old(sessionCsrf).Some? && !old(phase).SignedOut? && !old(phase).Unconfigured?
                then phase == SignedOut && principal == None && sessionCsrf == None && preauth == None && jar == None
                else Shown() == old(Shown()).(jar := if response.NetworkError? || cookie.None? then old(jar) else cookie)
    {
      var request := requests[id];
      assert request.generation != generation ==> request.aborted;
      hide ValidRequests, AllAborted;
      if request.aborted || timedOut {
        Settle(id, request.(aborted := true, result := Some(if timedOut then NetworkError else Aborted)));
        return;
      }
      Settle(id, request.(result := Some(response)));
      ghost var settled := requests;
      TakeIn(request.kind, response, cookie);
      KeptTwice(old(requests), settled, requests);
    }

    /** Cookies, and the end of the session on a 401. */
    method TakeIn(kind: Kind, response: Response, cookie: Option<Token>)
      requires Valid()
      modifies this
      ensures Valid() && client == old(client)
      ensures Shown() == TakenIn(old(Shown()), kind, response, cookie)
      ensures wipes == old(wipes) + One(Unauthorised(old(Shown()), kind, response))
      ensures requests.Keys == old(requests).Keys && StampsKept(old(requests), requests)
      ensures forall r :: r in requests ==> requests[r].result == old(requests)[r].result
      ensures forall r :: r in requests && old(requests)[r].aborted ==> requests[r].aborted
    {
      hide ValidRequests, AllAborted;
      if response.NetworkError? {
        return;
      }
      RecordCookies(cookie);
      if EndsSession(kind, response) && sessionCsrf.Some? {
        InvalidateLocally();
      }
    }

    method RecordCookies(cookie: Option<Token>)
      requires Valid()
      modifies this`jar
      ensures Valid() && jar == if cookie.Some? then cookie else old(jar)
    {
      if cookie.Some? {
        jar := cookie;
      }
    }

    /** The client has dealt with a request. */
    method Settle(id: nat, settled: Request)
      requires Valid() && id in requests && settled.result.Some?
      requires settled == requests[id].(aborted := settled.aborted, result := settled.result)
      modifies this`requests
      ensures Valid() && requests == old(requests)[id := settled]
    {
      requests := requests[id := settled];
    }

    /** The rest of an action after its await. The request is over. */
    method Resume(id: nat)
      requires Valid() && id in requests && requests[id].result.Some?
      modifies this
      ensures Valid()
      ensures requests.Keys == old(requests).Keys - {id} && client == old(client)
      ensures StampsKept(old(requests), requests)
      ensures forall r :: r in requests ==> requests[r].result == old(requests)[r].result
      // The guard: sign-out, server switch and invalidation all move on the
      // generation, and whatever began before them has no effect any more.
      ensures var r := old(requests)[id];
              if r.generation != old(generation) then Shown() == old(Shown()) && wipes == old(wipes)
              else Shown() == Finished(old(Shown()), r.kind, r.result.value)
                   && wipes == old(wipes) + One(EndsOn(r.kind, r.result.value) && !NoSession(old(phase)))
      // What the user sees of an answer in time.
      ensures var r := old(requests)[id];
              r.generation == old(generation) && r.result.value.Success? ==>
                var answer := r.result.value;
                && (r.kind.Login? ==> principal == Some(answer.user) && sessionCsrf == Some(answer.csrf) && preauth == None
                                      && jar == old(jar) && phase == (if answer.mustChange then MustChange else Authenticated))
                && (r.kind.Confirm? ==> principal == Some(answer.user) && sessionCsrf == Some(answer.csrf) && preauth == old(preauth)
                                        && jar == old(jar) && phase == (if answer.mustChange then MustChange else Authenticated))
                && (r.kind.ChangePassword? ==> phase == ConfirmingChange && principal == old(principal) && preauth == old(preauth)
                                               && jar == old(jar)
                                               && sessionCsrf == (if answer.rotated.Some? then answer.rotated else old(sessionCsrf)))
                && (r.kind.Preflight? ==> Shown() == old(Shown()).(preauth := Some(answer.csrf)))
                && (r.kind.Activity? || r.kind.Screen? ==> Shown() == old(Shown()))
      ensures var r := old(requests)[id];
              r.generation == old(generation) && r.kind.Login? && !r.result.value.Success? ==>
                && phase == SignedOut && principal == old(principal) && sessionCsrf == old(sessionCsrf) && jar == old(jar)
                && preauth == (if r.result.value == HttpError(403) then None else old(preauth))
      ensures var r := old(requests)[id];
              && r.generation == old(generation) && !old(phase).SignedOut? && !old(phase).Unconfigured?
              && (r.kind.Logout? || ((r.kind.ChangePassword? || r.kind.Confirm? || r.kind.Activity?) && r.result.value == HttpError(401)))
              ==> phase == SignedOut && principal == None && sessionCsrf == None && preauth == None && jar == None
      ensures var r := old(requests)[id];
              && (r.kind.ChangePassword? || r.kind.Confirm? || r.kind.Activity? || r.kind.Screen? || r.kind.Preflight?)
              && !r.result.value.Success? && r.result.value != HttpError(401)
              ==> Shown() == old(Shown())
    {
      hide AllAborted;
      var request := requests[id];
      requests := requests - {id};
      if request.generation != generation {
        return;
      }
      match request.kind
      case Preflight => FinishPreflight(request.result.value);
      case Login => FinishLogin(request.result.value);
      case ChangePassword => FinishChange(request.result.value);
      case Confirm => FinishConfirm(request.result.value);
      case Activity => EndOn401(request.result.value);
      case Logout => InvalidateLocally();
      case Screen =>
    }

    ghost predicate LoggedIn(r: Response)
      requires r.Success?
      reads this
    {
      && phase == SignedInPhase(r.mustChange)
      && principal == Some(r.user) && sessionCsrf == Some(r.csrf) && preauth == None
    }

    method FinishPreflight(r: Response)
      requires Valid() && client.Some?
      modifies this`preauth
      ensures Valid() && Shown() == Finished(old(Shown()), Preflight, r)
    {
      if r.Success? {
        preauth := Some(r.csrf);
      }
    }

    method FinishLogin(r: Response)
      requires Valid() && client.Some?
      modifies this`phase, this`principal, this`sessionCsrf, this`preauth, this`confirmFailed
      ensures Valid() && Shown() == Finished(old(Shown()), Login, r)
    {
      if r.Success? {
        principal, sessionCsrf, preauth, confirmFailed := Some(r.user), Some(r.csrf), None, false;
        phase := if r.mustChange then MustChange else Authenticated;
        return;
      }
      if r == HttpError(403) {
        preauth := None;
      }
      phase := SignedOut;
    }

    method FinishChange(r: Response)
      requires Valid() && sessionCsrf.Some?
      modifies this
      ensures Valid() && Shown() == Finished(old(Shown()), ChangePassword, r)
      ensures wipes == old(wipes) + One(EndsOn(ChangePassword, r) && !NoSession(old(phase)))
      ensures requests.Keys == old(requests).Keys && StampsKept(old(requests), requests)
      ensures forall r :: r in requests ==> requests[r].result == old(requests)[r].result
    {
      hide AllAborted;
      if r.Success? {
        if r.rotated.Some? {
          sessionCsrf := r.rotated;
        }
        confirmFailed, phase := false, ConfirmingChange;
        return;
      }
      EndOn401(r);
    }

    method FinishConfirm(r: Response)
      requires Valid() && client.Some?
      modifies this
      ensures Valid() && Shown() == Finished(old(Shown()), Confirm, r)
      ensures wipes == old(wipes) + One(EndsOn(Confirm, r) && !NoSession(old(phase)))
      ensures requests.Keys == old(requests).Keys && StampsKept(old(requests), requests)
      ensures forall r :: r in requests ==> requests[r].result == old(requests)[r].result
      ensures !r.Success? && r != HttpError(401) ==> confirmFailed
    {
      hide AllAborted;
      if r.Success? {
        principal, sessionCsrf, confirmFailed := Some(r.user), Some(r.csrf), false;
        phase := if r.mustChange then MustChange else Authenticated;
        return;
      }
      if r == HttpError(401) {
        InvalidateLocally();
        return;
      }
      confirmFailed := true;
    }

    method EndOn401(r: Response)
      requires Valid()
      modifies this
      ensures Valid() && Shown() == if r == HttpError(401) then Ended(old(Shown())) else old(Shown())
      ensures wipes == old(wipes) + One(r == HttpError(401) && !NoSession(old(phase)))
      ensures requests.Keys == old(requests).Keys && StampsKept(old(requests), requests)
      ensures forall r :: r in requests ==> requests[r].result == old(requests)[r].result
    {
      hide AllAborted;
      if r == HttpError(401) {
        InvalidateLocally();
      }
    }
  }

  // ----- any interleaving -----

  /** One uninterrupted stretch of the program. */
  datatype Call =
    | Switch(valid: bool)
    | Start(id: nat, kind: Kind)
    | SignOut(id: nat)
    | Invalidate
    | Deliver(id: nat, response: Response, cookie: Option<Token>, timedOut: bool)
    | Continue(id: nat)

  /** What can be seen between two stretches. */
  datatype Moment = Moment(shown: Visible, wipes: nat)

  predicate Starts(c: Call, id: nat) { (c.Start? || c.SignOut?) && c.id == id }
  predicate Answers(c: Call, id: nat) { (c.Deliver? || c.Continue?) && c.id == id }

  /** A stretch that has nothing to do, as an answer to a request that is over,
      does nothing. */
  method Perform(c: SessionController, call: Call)
    requires c.Valid() && (forall r :: Starts(call, r) ==> r !in c.requests)
    modifies c
    ensures c.Valid() && c.wipes >= old(c.wipes)
    ensures call.Switch? || call.SignOut? ==> c.wipes > old(c.wipes)
    ensures call.Invalidate? ==> c.Shown() == Ended(old(c.Shown())) && (!NoSession(old(c.phase)) ==> c.wipes > old(c.wipes))
    ensures old(c.sessionCsrf).Some? && c.sessionCsrf.None? ==> c.wipes > old(c.wipes)
    ensures StampsKept(old(c.requests), c.requests)
    ensures forall r :: r in c.requests ==> r in old(c.requests) || (Starts(call, r) && c.requests[r].generation == c.wipes)
    ensures forall r :: Answers(call, r) && (r in old(c.requests) ==> old(c.requests)[r].generation != old(c.wipes)) ==>
              c.Shown() == old(c.Shown()) && c.wipes == old(c.wipes)
  {
    hide AllAborted;
    match call
    case Switch(valid) => c.SetServerUrl(valid);
    case Start(id, kind) => var _ := c.Begin(id, kind);
    case SignOut(id) => var _ := c.BeginSignOut(id);
    case Invalidate => c.InvalidateLocally();
    case Deliver(id, response, cookie, timedOut) =>
      if id in c.requests && c.requests[id].result.None? && !response.Aborted? {
        c.Arrive(id, response, cookie, timedOut);
      }
    case Continue(id) =>
      if id in c.requests && c.requests[id].result.Some? {
        c.Resume(id);
      }
  }

  /** Whatever answers a request begun at call i has no effect at call j if the
      session was wiped in between. */
  ghost predicate NoLateEffect(calls: seq<Call>, trace: seq<Moment>, n: nat)
    requires n <= |calls| && n < |trace|
  {
    forall i, j, r :: 0 <= i < j < n && Starts(calls[i], r) && Answers(calls[j], r) && trace[j].wipes != trace[i + 1].wipes
      ==> trace[j + 1] == trace[j]
  }

  /** Sign-outs and switches always count as wipes, an invalidation does when
      there is a session to end, and so does everything else that takes the
      session's token away, a 401 in particular; wipes are never undone. */
  ghost predicate WipesCount(calls: seq<Call>, trace: seq<Moment>, n: nat)
    requires n <= |calls| && n < |trace|
  {
    && (forall i :: 0 <= i < n ==> trace[i].wipes <= trace[i + 1].wipes)
    && (forall i :: 0 <= i < n && Wiping(calls[i], trace[i], trace[i + 1]) ==> trace[i].wipes < trace[i + 1].wipes)
  }

  predicate Wiping(call: Call, before: Moment, after: Moment) {
    || call.Switch? || call.SignOut?
    || (call.Invalidate? && !NoSession(before.shown.phase))
    || (before.shown.sessionCsrf.Some? && after.shown.sessionCsrf.None?)
  }

  /** A phase with a session has a client, an account and a token. */
  predicate Equipped(m: Moment) {
    SignedIn(m.shown.phase) ==> m.shown.client.Some? && m.shown.principal.Some? && m.shown.sessionCsrf.Some?
  }

  /** Every request that is still there carries the count of wipes at its start. */
  ghost predicate Stamped(calls: seq<Call>, trace: seq<Moment>, n: nat, requests: map<nat, Request>)
    requires n <= |calls| && n < |trace|
  {
    && (forall i, r :: 0 <= i < n && Starts(calls[i], r) && r in requests ==> requests[r].generation == trace[i + 1].wipes)
    && (forall i, r :: n <= i < |calls| && Starts(calls[i], r) ==> r !in requests)
  }

  ghost predicate DistinctStarts(calls: seq<Call>) {
    forall i, j, r :: 0 <= i < j < |calls| && Starts(calls[i], r) ==> !Starts(calls[j], r)
  }

  lemma StampedFurther(calls: seq<Call>, trace: seq<Moment>, m: Moment, n: nat, before: map<nat, Request>, after: map<nat, Request>)
    requires n < |calls| && |trace| == n + 1 && DistinctStarts(calls)
    requires Stamped(calls, trace, n, before) && StampsKept(before, after)
    requires forall r :: r in after ==> r in before || (Starts(calls[n], r) && after[r].generation == m.wipes)
    ensures Stamped(calls, trace + [m], n + 1, after)
  {
    var longer := trace + [m];
    forall i, r | 0 <= i < n + 1 && Starts(calls[i], r) && r in after ensures after[r].generation == longer[i + 1].wipes {
      if r in before {
        assert i < n;
        assert longer[i + 1] == trace[i + 1];
      }
    }
  }

  lemma NoLateEffectFurther(calls: seq<Call>, trace: seq<Moment>, m: Moment, n: nat, requests: map<nat, Request>)
    requires n < |calls| && |trace| == n + 1
    requires Stamped(calls, trace, n, requests) && NoLateEffect(calls, trace, n)
    requires forall r :: Answers(calls[n], r) && (r in requests ==> requests[r].generation != trace[n].wipes) ==> m == trace[n]
    ensures NoLateEffect(calls, trace + [m], n + 1)
  {
    var longer := trace + [m];
    forall i, j, r | 0 <= i < j < n + 1 && Starts(calls[i], r) && Answers(calls[j], r) && longer[j].wipes != longer[i + 1].wipes
      ensures longer[j + 1] == longer[j]
    {
      assert longer[j] == trace[j] && longer[i + 1] == trace[i + 1];
      if j < n {
        assert longer[j + 1] == trace[j + 1];
      }
    }
  }

  /** Any sequence of stretches, with fresh request numbers. Neither the arrival
      of a response nor the rest of the action that awaited it changes phase,
      account, tokens, cookies or client once there has been a sign-out, a server
      switch or an invalidation since the request began; and a phase with a
      session always has a client, an account and a token. */
  method AnyRun(c: SessionController, calls: seq<Call>) returns (ghost trace: seq<Moment>)
    requires c.Valid() && DistinctStarts(calls)
    requires forall i, r :: 0 <= i < |calls| && Starts(calls[i], r) ==> r !in c.requests
    modifies c
    ensures |trace| == |calls| + 1 && trace[|calls|] == Moment(c.Shown(), c.wipes)
    ensures NoLateEffect(calls, trace, |calls|)
    ensures WipesCount(calls, trace, |calls|)
    ensures forall m :: m in trace ==> Equipped(m)
  {
    trace := [Moment(c.Shown(), c.wipes)];
    for n := 0 to |calls|
      invariant c.Valid() && |trace| == n + 1 && trace[n] == Moment(c.Shown(), c.wipes)
      invariant SoFar(calls, trace, n, c.requests)
    {
      hide *;
      trace := OneMore(c, calls, trace, n);
    }
  }

  ghost predicate SoFar(calls: seq<Call>, trace: seq<Moment>, n: nat, requests: map<nat, Request>)
    requires n <= |calls| && n < |trace|
  {
    && Stamped(calls, trace, n, requests)
    && NoLateEffect(calls, trace, n)
    && WipesCount(calls, trace, n)
    && (forall m :: m in trace ==> Equipped(m))
  }

  method OneMore(c: SessionController, calls: seq<Call>, ghost trace: seq<Moment>, n: nat) returns (ghost longer: seq<Moment>)
    requires n < |calls| && |trace| == n + 1 && DistinctStarts(calls)
    requires c.Valid() && trace[n] == Moment(c.Shown(), c.wipes) && SoFar(calls, trace, n, c.requests)
    modifies c
    ensures |longer| == n + 2
    ensures c.Valid() && longer[n + 1] == Moment(c.Shown(), c.wipes) && SoFar(calls, longer, n + 1, c.requests)
  {
    hide NoLateEffect, StampsKept, SessionController.ValidRequests;
    ghost var before := c.requests;
    Perform(c, calls[n]);
    ghost var m := Moment(c.Shown(), c.wipes);
    longer := trace + [m];
    assert Equipped(m);
    hide SessionController.Valid, Equipped;
    StampedFurther(calls, trace, m, n, before, c.requests);
    NoLateEffectFurther(calls, trace, m, n, before);
    hide Stamped;
  }

  /** Signing out with nothing else in between: the phone is wiped exactly when
      it did not already show the user as signed out, or there was nothing. */
  method SignOutAlone(c: SessionController, id: nat, answer: Response, cookie: Option<Token>, timedOut: bool)
    requires c.Valid() && id !in c.requests && !answer.Aborted?
    modifies c
    ensures c.Valid()
    ensures !NoSession(old(c.phase)) ==> c.Shown() == Ended(old(c.Shown()))
    ensures NoSession(old(c.phase)) ==>
              c.principal == old(c.principal) && c.sessionCsrf == old(c.sessionCsrf) && c.preauth == old(c.preauth)
    ensures (c.principal == None && c.sessionCsrf == None && c.preauth == None) <==>
              || !NoSession(old(c.phase))
              || (old(c.principal) == None && old(c.sessionCsrf) == None && old(c.preauth) == None)
  {
    hide AllAborted;
    var started := c.BeginSignOut(id);
    if started {
      c.Arrive(id, answer, cookie, timedOut);
      c.Resume(id);
    }
  }

  /** Signing in again with a wrong password, while signed in, and then signing
      out: the old session's token and account stay behind. */
  method SignOutAfterFailedLogin() returns (c: SessionController)
    ensures c.Valid() && c.phase.SignedOut? && c.sessionCsrf.Some? && c.principal.Some?
  {
    c := new SessionController();
    c.SetServerUrl(true);
    SignIn(c, 0, Success(2, None, 7, false));
    SignIn(c, 2, HttpError(401));
    var _ := c.BeginSignOut(4);
    c.Arrive(4, NetworkError, None, false);
    c.Resume(4);
  }

  /** A pre-flight and a login, undisturbed. */
  method SignIn(c: SessionController, id: nat, answer: Response)
    requires c.Valid() && c.client.Some? && id !in c.requests && id + 1 !in c.requests
    requires answer.Success? || answer == HttpError(401)
    modifies c
    ensures c.Valid() && c.client == old(c.client)
    ensures c.requests.Keys == old(c.requests).Keys
    ensures if answer.Success? then c.LoggedIn(answer)
            else c.phase == SignedOut && c.principal == old(c.principal) && c.sessionCsrf == old(c.sessionCsrf)
  {
    GetPreauth(c, id);
    var _ := c.Begin(id + 1, Login);
    c.Arrive(id + 1, answer, None, false);
    c.Resume(id + 1);
  }

  method GetPreauth(c: SessionController, id: nat)
    requires c.Valid() && c.client.Some? && id !in c.requests
    modifies c
    ensures c.Valid() && c.requests.Keys == old(c.requests).Keys
    ensures c.Shown() == old(c.Shown()).(preauth := Some(1))
  {
    var _ := c.Begin(id, Preflight);
    c.Arrive(id, Success(1, None, 0, false), None, false);
    c.Resume(id);
  }
}
