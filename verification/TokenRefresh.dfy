/**
 Access-token refresh of the web client against the API's rotating refresh token: many requests
 may fail with 401 at once, one refresh serves them all.
 */
module TokenRefresh {
  import opened Wrappers

  // Refresh tokens are opaque and distinct.
  type Token = nat

  // One call of POST /auth/refresh, from sending to the settled promise. The server compares the
  // token and stores the next one in two separate database operations.
  datatype Stage =
    | Sent(token: Token)
    | Checked(token: Token)
    | Answered(result: Option<Token>)
    | Settled(outcome: Option<Token>)

  // finished: the finally block of the call that started it has run.
  datatype Flight = Flight(stage: Stage, finished: bool)

  datatype Phase = First | Waiting(flight: nat) | Retrying | Done

  datatype Request = Request(phase: Phase, fetches: nat, skipAuth: bool)

  datatype State = State(
    clientToken: Option<Token>,       // tokenManager
    refreshPromise: Option<nat>,
    flights: seq<Flight>,             // every refresh ever sent; the promise is a position
    requests: seq<Request>,
    serverToken: Option<Token>,       // hashedRefreshToken
    nextToken: Token)

  datatype Action =
    | Open(skipAuth: bool)
    | Respond(request: nat, unauthorized: bool)
    | FailFetch(request: nat)
    | Check(flight: nat)
    | Rotate(flight: nat)
    | Deliver(flight: nat)
    | Finally(flight: nat)
    | Resume(request: nat)
    | ClearClient
    | Logout

  // Right after a login.
  function LoggedIn(token: Token): State {
    State(Some(token), None, [], [], Some(token), token + 1)
  }

  function WithStage(s: State, h: nat, stage: Stage): State
    requires h < |s.flights|
  {
    s.(flights := s.flights[h := s.flights[h].(stage := stage)])
  }

  function WithRequest(s: State, i: nat, r: Request): State
    requires i < |s.requests|
  {
    s.(requests := s.requests[i := r])
  }

  // FetchClient.refreshTokens, up to its first suspension: join the refresh under way or send one.
  function JoinOrSend(s: State, i: nat): State
    requires i < |s.requests| && s.clientToken.Some?
  {
    match s.refreshPromise
    case Some(h) => WithRequest(s, i, s.requests[i].(phase := Waiting(h)))
    case None =>
      var h := |s.flights|;
      WithRequest(s, i, s.requests[i].(phase := Waiting(h)))
        .(flights := s.flights + [Flight(Sent(s.clientToken.value), false)], refreshPromise := Some(h))
  }

  // The continuation of request after a response.
  function OnResponse(s: State, i: nat, unauthorized: bool): State
    requires i < |s.requests|
  {
    var r := s.requests[i];
    if r.phase.First? && unauthorized && !r.skipAuth && s.clientToken.Some? then JoinOrSend(s, i)
    else WithRequest(s, i, r.(phase := Done))
  }

  // A fetch that throws: inside the retry block the tokens are cleared.
  function OnFailure(s: State, i: nat): State
    requires i < |s.requests|
  {
    var r := s.requests[i];
    var t := WithRequest(s, i, r.(phase := Done));
    if r.phase.Retrying? then t.(clientToken := None) else t
  }

  // The continuation of a request that awaited a refresh.
  function OnRefreshed(s: State, i: nat, outcome: Option<Token>): State
    requires i < |s.requests|
  {
    var r := s.requests[i];
    if outcome.Some? then WithRequest(s, i, r.(phase := Retrying, fetches := r.fetches + 1))
    else WithRequest(s, i, r.(phase := Done)).(clientToken := None)
  }

  ghost predicate Enabled(s: State, a: Action) {
    match a
    case Respond(i, _) => i < |s.requests| && (s.requests[i].phase.First? || s.requests[i].phase.Retrying?)
    case FailFetch(i) => i < |s.requests| && (s.requests[i].phase.First? || s.requests[i].phase.Retrying?)
    case Check(h) => h < |s.flights| && s.flights[h].stage.Sent?
    case Rotate(h) => h < |s.flights| && s.flights[h].stage.Checked?
    case Deliver(h) => h < |s.flights| && s.flights[h].stage.Answered?
    case Finally(h) => h < |s.flights| && s.flights[h].stage.Settled? && !s.flights[h].finished
    case Resume(i) =>
      && i < |s.requests| && s.requests[i].phase.Waiting?
      && var h := s.requests[i].phase.flight;
      && h < |s.flights| && s.flights[h].stage.Settled?
    case _ => true
  }

  function Apply(s: State, a: Action): State
    requires Enabled(s, a)
  {
    match a
    case Open(skipAuth) => s.(requests := s.requests + [Request(First, 1, skipAuth)])
    case Respond(i, unauthorized) => OnResponse(s, i, unauthorized)
    case FailFetch(i) => OnFailure(s, i)
    case Check(h) =>
      var t := s.flights[h].stage.token;
      WithStage(s, h, if s.serverToken == Some(t) then Checked(t) else Answered(None))
    case Rotate(h) =>
      WithStage(s, h, Answered(Some(s.nextToken))).(serverToken := Some(s.nextToken), nextToken := s.nextToken + 1)
    case Deliver(h) =>
      var r := s.flights[h].stage.result;
      WithStage(s, h, Settled(r)).(clientToken := if r.Some? then r else s.clientToken)
    case Finally(h) => s.(flights := s.flights[h := s.flights[h].(finished := true)], refreshPromise := None)
    case Resume(i) => OnRefreshed(s, i, s.flights[s.requests[i].phase.flight].stage.outcome)
    case ClearClient => s.(clientToken := None)
    case Logout => s.(serverToken := None)
  }

  // Trace is a run from s that ends in t.
  ghost predicate Run(s: State, trace: seq<Action>, t: State)
    decreases |trace|
  {
    if trace == [] then s == t
    else Enabled(s, trace[0]) && Run(Apply(s, trace[0]), trace[1..], t)
  }

  // ---------------------------------------------------------------------
  // The invariant
  // ---------------------------------------------------------------------

  // Two token stores that do not contradict each other.
  predicate Compatible(a: Option<Token>, b: Option<Token>) {
    a.None? || b.None? || a == b
  }

  predicate Settling(s: State, h: nat) {
    h < |s.flights| && !s.flights[h].finished
  }

  // What one unfinished flight says about the two token stores.
  predicate FlightSound(s: State, stage: Stage) {
    match stage
    case Sent(t) => Compatible(s.serverToken, Some(t))
    case Checked(t) => Compatible(s.serverToken, Some(t))
    case Answered(r) => Compatible(s.serverToken, r) && (r.None? ==> s.serverToken.None?)
    case Settled(r) => Compatible(s.clientToken, s.serverToken)
  }

  // The promise field points at the only unfinished refresh, and every waiter at a real one.
  ghost predicate SingleFlight(s: State) {
    && (forall h: nat :: Settling(s, h) <==> s.refreshPromise == Some(h))
    && (forall h | 0 <= h < |s.flights| :: s.flights[h].finished ==> s.flights[h].stage.Settled?)
    && (forall i | 0 <= i < |s.requests| && s.requests[i].phase.Waiting? :: s.requests[i].phase.flight < |s.flights|)
  }

  ghost predicate TokensAgree(s: State) {
    match s.refreshPromise
    case None => Compatible(s.clientToken, s.serverToken)
    case Some(h) => h < |s.flights| && FlightSound(s, s.flights[h].stage)
  }

  predicate Expected(r: Request) {
    r.fetches == 1 || (r.fetches == 2 && (r.phase.Retrying? || r.phase.Done?))
  }

  ghost predicate FetchesBounded(s: State) {
    forall i | 0 <= i < |s.requests| :: Expected(s.requests[i])
  }

  ghost predicate Inv(s: State) {
    SingleFlight(s) && TokensAgree(s) && FetchesBounded(s)
  }

  lemma StepKeepsSingleFlight(s: State, a: Action)
    requires SingleFlight(s) && Enabled(s, a)
    ensures SingleFlight(Apply(s, a))
  {
    var t := Apply(s, a);
    match a {
      case Finally(h) =>
        assert Settling(s, h);
        forall g: nat ensures !Settling(t, g) {
          assert Settling(t, g) ==> Settling(s, g);
        }
      case Respond(i, u) => assert forall g: nat | g < |s.flights| :: Settling(t, g) == Settling(s, g);
      case Check(h) => assert forall g: nat :: Settling(t, g) == Settling(s, g);
      case Rotate(h) => assert forall g: nat :: Settling(t, g) == Settling(s, g);
      case Deliver(h) => assert forall g: nat :: Settling(t, g) == Settling(s, g);
      case _ => assert forall g: nat :: Settling(t, g) == Settling(s, g);
    }
  }

  // A refresh not yet settled is the one the promise field holds.
  lemma UnsettledIsPromise(s: State, h: nat)
    requires SingleFlight(s) && h < |s.flights| && !s.flights[h].stage.Settled?
    ensures s.refreshPromise == Some(h)
  {
    assert Settling(s, h);
  }

  lemma StepKeepsTokens(s: State, a: Action)
    requires SingleFlight(s) && TokensAgree(s) && Enabled(s, a)
    ensures TokensAgree(Apply(s, a))
  {
    match a {
      case Check(h) => UnsettledIsPromise(s, h);
      case Rotate(h) => UnsettledIsPromise(s, h);
      case Deliver(h) => UnsettledIsPromise(s, h);
      case Finally(h) => assert Settling(s, h);
      case _ =>
    }
  }

  lemma StepKeepsFetches(s: State, a: Action)
    requires FetchesBounded(s) && Enabled(s, a)
    ensures FetchesBounded(Apply(s, a))
  {
    match a {
      case Respond(i, u) => assert Expected(s.requests[i]);
      case FailFetch(i) => assert Expected(s.requests[i]);
      case Resume(i) => assert Expected(s.requests[i]);
      case _ =>
    }
  }

  lemma {:induction false} RunKeepsInv(s: State, trace: seq<Action>, t: State)
    requires Inv(s) && Run(s, trace, t)
    ensures Inv(t)
    decreases |trace|
  {
    if trace != [] {
      StepKeepsSingleFlight(s, trace[0]);
      StepKeepsTokens(s, trace[0]);
      StepKeepsFetches(s, trace[0]);
      RunKeepsInv(Apply(s, trace[0]), trace[1..], t);
    }
  }

  // However many requests fail at once, at most one refresh is on its way, and clearing the
  // promise field in a finally block never drops a newer refresh.
  lemma OneRefreshAtATime(token: Token, trace: seq<Action>, s: State, g: nat, h: nat)
    requires Run(LoggedIn(token), trace, s)
    requires g < |s.flights| && h < |s.flights|
    requires !s.flights[g].stage.Settled? && !s.flights[h].stage.Settled?
    ensures g == h && s.refreshPromise == Some(g)
  {
    RunKeepsInv(LoggedIn(token), trace, s);
    UnsettledIsPromise(s, g);
    UnsettledIsPromise(s, h);
  }

  // While no refresh is on its way the client and the server hold the same token, unless one of
  // them holds none.
  lemma AgreeWhenIdle(token: Token, trace: seq<Action>, s: State)
    requires Run(LoggedIn(token), trace, s)
    requires forall h | 0 <= h < |s.flights| :: s.flights[h].stage.Settled?
    ensures Compatible(s.clientToken, s.serverToken)
  {
    RunKeepsInv(LoggedIn(token), trace, s);
  }

  // A refresh that reaches the server is accepted exactly when the session still exists there:
  // it is never refused for carrying a token that was rotated away.
  lemma NeverRefusedForMismatch(token: Token, trace: seq<Action>, s: State, h: nat)
    requires Run(LoggedIn(token), trace, s) && Enabled(s, Check(h))
    ensures Apply(s, Check(h)).flights[h].stage.Checked? <==> s.serverToken.Some?
  {
    RunKeepsInv(LoggedIn(token), trace, s);
    UnsettledIsPromise(s, h);
  }

  lemma AtMostTwoFetches(token: Token, trace: seq<Action>, s: State, i: nat)
    requires Run(LoggedIn(token), trace, s) && i < |s.requests|
    ensures s.requests[i].fetches <= 2
    ensures s.requests[i].phase.Waiting? ==>
              var h := s.requests[i].phase.flight;
              h < |s.flights| && (s.flights[h].stage.Settled? || s.refreshPromise == Some(h))
  {
    RunKeepsInv(LoggedIn(token), trace, s);
    assert Expected(s.requests[i]);
    if s.requests[i].phase.Waiting? && !s.flights[s.requests[i].phase.flight].stage.Settled? {
      UnsettledIsPromise(s, s.requests[i].phase.flight);
    }
  }

  // ---------------------------------------------------------------------
  // Without a logout
  // ---------------------------------------------------------------------

  predicate Refused(stage: Stage) {
    stage == Answered(None) || stage == Settled(None)
  }

  ghost predicate NoneRefused(s: State) {
    s.serverToken.Some? && forall h | 0 <= h < |s.flights| :: !Refused(s.flights[h].stage)
  }

  lemma StepRefusesNone(s: State, a: Action)
    requires Inv(s) && NoneRefused(s) && Enabled(s, a) && a != Logout
    ensures NoneRefused(Apply(s, a))
  {
    match a {
      case Check(h) => UnsettledIsPromise(s, h);
      case Deliver(h) => assert !Refused(s.flights[h].stage);
      case Finally(h) => assert !Refused(s.flights[h].stage);
      case _ =>
    }
  }

  // As long as the session is not logged out, no refresh is ever refused, so every request that
  // waits for one is retried and none of them ends the session.
  lemma {:induction false} NoLogoutNoRefusal(s: State, trace: seq<Action>, t: State)
    requires Inv(s) && NoneRefused(s) && Run(s, trace, t) && Logout !in trace
    ensures NoneRefused(t)
    ensures forall i: nat :: Enabled(t, Resume(i)) ==> Apply(t, Resume(i)).requests[i].phase.Retrying?
    decreases |trace|
  {
    if trace != [] {
      StepKeepsSingleFlight(s, trace[0]);
      StepKeepsTokens(s, trace[0]);
      StepKeepsFetches(s, trace[0]);
      StepRefusesNone(s, trace[0]);
      assert Logout !in trace[1..];
      NoLogoutNoRefusal(Apply(s, trace[0]), trace[1..], t);
    } else {
      forall i: nat | Enabled(t, Resume(i)) ensures Apply(t, Resume(i)).requests[i].phase.Retrying? {
        assert !Refused(t.flights[t.requests[i].phase.flight].stage);
      }
    }
  }

  // ---------------------------------------------------------------------
  // Rotation
  // ---------------------------------------------------------------------

  // The token that a refresh holds at a stage, if any.
  function TokenOf(stage: Stage): Option<Token> {
    match stage
    case Sent(t) => Some(t)
    case Checked(t) => Some(t)
    case Answered(r) => r
    case Settled(r) => r
  }

  predicate Issued(s: State, t: Option<Token>) {
    t.Some? ==> t.value < s.nextToken
  }

  // Every token around has been issued before.
  ghost predicate AllIssued(s: State) {
    && Issued(s, s.clientToken) && Issued(s, s.serverToken)
    && forall h | 0 <= h < |s.flights| :: Issued(s, TokenOf(s.flights[h].stage))
  }

  lemma StepKeepsIssued(s: State, a: Action)
    requires AllIssued(s) && Enabled(s, a)
    ensures AllIssued(Apply(s, a))
  {
    match a {
      case Resume(i) => ResumeMeaning(s, i);
      case Deliver(h) => assert Issued(s, TokenOf(s.flights[h].stage));
      case Check(h) => assert Issued(s, TokenOf(s.flights[h].stage));
      case _ =>
    }
  }

  lemma {:induction false} IssuedAlways(s: State, trace: seq<Action>, t: State)
    requires AllIssued(s) && Run(s, trace, t)
    ensures AllIssued(t)
    decreases |trace|
  {
    if trace != [] {
      StepKeepsIssued(s, trace[0]);
      IssuedAlways(Apply(s, trace[0]), trace[1..], t);
    }
  }

  // What the server stores and answers is a token that nobody has.
  lemma RotationIsNew(s: State, h: nat)
    requires AllIssued(s) && Enabled(s, Rotate(h))
    ensures var t := Apply(s, Rotate(h));
            && t.serverToken.Some? && t.flights == s.flights[h := s.flights[h].(stage := Answered(t.serverToken))]
            && t.serverToken != s.serverToken && t.serverToken != s.clientToken && t.clientToken == s.clientToken
            && forall k | 0 <= k < |s.flights| :: TokenOf(s.flights[k].stage) != t.serverToken
  {
    forall k | 0 <= k < |s.flights| ensures TokenOf(s.flights[k].stage) != Apply(s, Rotate(h)).serverToken {
      assert Issued(s, TokenOf(s.flights[k].stage));
    }
  }

  lemma {:induction false} ReplacedForGood(s: State, trace: seq<Action>, t: State, token: Token)
    requires AllIssued(s) && Run(s, trace, t) && token < s.nextToken && s.serverToken != Some(token)
    ensures t.serverToken != Some(token)
    decreases |trace|
  {
    if trace != [] {
      StepKeepsIssued(s, trace[0]);
      ReplacedForGood(Apply(s, trace[0]), trace[1..], t, token);
    }
  }

  // In every run from a login: a token that the server has replaced is never the session's again.
  lemma OldTokenStaysOut(token: Token, before: seq<Action>, s: State, h: nat, after: seq<Action>, t: State)
    requires Run(LoggedIn(token), before, s) && Enabled(s, Rotate(h)) && Run(Apply(s, Rotate(h)), after, t)
    ensures s.serverToken.Some? ==> t.serverToken != s.serverToken
  {
    IssuedAlways(LoggedIn(token), before, s);
    if s.serverToken.Some? {
      StepKeepsIssued(s, Rotate(h));
      RotationIsNew(s, h);
      ReplacedForGood(Apply(s, Rotate(h)), after, t, s.serverToken.value);
    }
  }

  // ---------------------------------------------------------------------
  // Logging out
  // ---------------------------------------------------------------------

  ghost predicate Rotates(trace: seq<Action>) {
    exists a | a in trace :: a.Rotate?
  }

  lemma SessionStep(s: State, a: Action)
    requires Enabled(s, a) && a != Logout
    ensures Apply(s, a).serverToken.Some? <==> s.serverToken.Some? || a.Rotate?
  {
    if a.Resume? { ResumeMeaning(s, a.request); }
  }

  lemma {:induction false} SessionAfter(s: State, trace: seq<Action>, t: State)
    requires Run(s, trace, t) && Logout !in trace
    ensures t.serverToken.Some? <==> s.serverToken.Some? || Rotates(trace)
    decreases |trace|
  {
    if trace != [] {
      var a, rest := trace[0], trace[1..];
      assert trace == [a] + rest;
      SessionStep(s, a);
      SessionAfter(Apply(s, a), rest, t);
      assert Rotates(trace) <==> a.Rotate? || Rotates(rest);
    }
  }

  // A refresh is between its comparison and its store.
  ghost predicate Comparing(s: State) {
    exists h: nat :: h < |s.flights| && s.flights[h].stage.Checked?
  }

  lemma NoneStartsComparing(s: State, a: Action)
    requires Enabled(s, a) && s.serverToken.None? && !Comparing(s)
    ensures Apply(s, a).serverToken.None? && !Comparing(Apply(s, a))
  {
    if a.Resume? { ResumeMeaning(s, a.request); }
  }

  lemma {:induction false} StaysLoggedOut(s: State, trace: seq<Action>, t: State)
    requires Run(s, trace, t) && s.serverToken.None? && !Comparing(s)
    ensures t.serverToken.None?
    decreases |trace|
  {
    if trace != [] {
      NoneStartsComparing(s, trace[0]);
      StaysLoggedOut(Apply(s, trace[0]), trace[1..], t);
    }
  }

  // A logout ends the session for good, unless a refresh was between its comparison and its store:
  // the session is there again exactly when that refresh stores its token after the logout.
  lemma LogoutEndsSession(s: State, trace: seq<Action>, t: State)
    requires Enabled(s, Logout) && Run(Apply(s, Logout), trace, t) && Logout !in trace
    ensures t.serverToken.Some? <==> Rotates(trace)
    ensures Rotates(trace) ==> Comparing(s)
  {
    SessionAfter(Apply(s, Logout), trace, t);
    if !Comparing(s) { StaysLoggedOut(Apply(s, Logout), trace, t); }
  }

  // A logout in that gap, from a login on: the session outlives it.
  lemma LogoutInTheGap(token: Token)
    ensures var trace := [Open(false), Respond(0, true), Check(0), Logout, Rotate(0)];
            exists t :: Run(LoggedIn(token), trace, t) && t.serverToken == Some(token + 1)
  {
    var s0 := LoggedIn(token);
    var trace := [Open(false), Respond(0, true), Check(0), Logout, Rotate(0)];
    var s1 := Apply(s0, Open(false));
    var s2 := Apply(s1, Respond(0, true));
    var s3 := Apply(s2, Check(0));
    var s4 := Apply(s3, Logout);
    var s5 := Apply(s4, Rotate(0));
    assert trace[1..] == [Respond(0, true), Check(0), Logout, Rotate(0)];
    assert trace[1..][1..] == [Check(0), Logout, Rotate(0)];
    assert trace[1..][1..][1..] == [Logout, Rotate(0)];
    assert trace[1..][1..][1..][1..] == [Rotate(0)];
    assert Run(s5, [], s5) && [Rotate(0)][1..] == [];
    assert Run(s4, [Rotate(0)], s5);
    assert Run(s3, [Logout, Rotate(0)], s5);
    assert Run(s2, [Check(0), Logout, Rotate(0)], s5);
    assert Run(s1, [Respond(0, true), Check(0), Logout, Rotate(0)], s5);
    assert Run(s0, trace, s5);
  }

  lemma NoneOnItsWay(s: State)
    requires SingleFlight(s) && s.refreshPromise.None?
    ensures forall h | 0 <= h < |s.flights| :: s.flights[h].finished && s.flights[h].stage.Settled?
  {
    forall h: nat | h < |s.flights| ensures s.flights[h].finished && s.flights[h].stage.Settled? {
      assert !Settling(s, h);
    }
  }

  lemma ClearedStep(s: State, a: Action)
    requires SingleFlight(s) && Enabled(s, a) && s.clientToken.None? && s.refreshPromise.None?
    ensures SingleFlight(Apply(s, a)) && Apply(s, a).clientToken.None? && Apply(s, a).refreshPromise.None?
    ensures Apply(s, a).flights == s.flights && Apply(s, a).serverToken == if a.Logout? then None else s.serverToken
  {
    StepKeepsSingleFlight(s, a);
    NoneOnItsWay(s);
    match a {
      case Respond(i, u) => ResponseMeaning(s, i, u);
      case Resume(i) => ResumeMeaning(s, i);
      case _ =>
    }
  }

  lemma {:induction false} ClearedRun(s: State, trace: seq<Action>, t: State)
    requires SingleFlight(s) && Run(s, trace, t) && s.clientToken.None? && s.refreshPromise.None?
    ensures t.clientToken.None? && t.flights == s.flights
    decreases |trace|
  {
    if trace != [] {
      ClearedStep(s, trace[0]);
      ClearedRun(Apply(s, trace[0]), trace[1..], t);
    }
  }

  // A client that has cleared its tokens while no refresh is on its way never refreshes again.
  lemma ClearedStaysOut(s: State, trace: seq<Action>, t: State)
    requires Inv(s) && s.refreshPromise.None? && Enabled(s, ClearClient) && Run(Apply(s, ClearClient), trace, t)
    ensures t.clientToken.None? && t.flights == s.flights
  {
    StepKeepsSingleFlight(s, ClearClient);
    ClearedRun(Apply(s, ClearClient), trace, t);
  }

  // ---------------------------------------------------------------------
  // Refreshing exactly on 401
  // ---------------------------------------------------------------------

  // The first fetch of a request comes back with 401, and there is a token to refresh with.
  predicate FirstUnauthorized(s: State, a: Action, i: nat) {
    && a == Respond(i, true) && i < |s.requests| && s.requests[i].phase == First && !s.requests[i].skipAuth
    && s.clientToken.Some?
  }

  // What a response does: a 401 of a first fetch makes the request wait for the refresh under way, or
  // for one that is sent with the client's token; any other response ends the request.
  lemma ResponseMeaning(s: State, i: nat, unauthorized: bool)
    requires Enabled(s, Respond(i, unauthorized))
    ensures var t := Apply(s, Respond(i, unauthorized));
            && |t.requests| == |s.requests|
            && (forall k | 0 <= k < |s.requests| && k != i :: t.requests[k] == s.requests[k])
            && t.clientToken == s.clientToken && t.serverToken == s.serverToken
            && t.requests[i].fetches == s.requests[i].fetches && t.requests[i].skipAuth == s.requests[i].skipAuth
            && if !FirstUnauthorized(s, Respond(i, unauthorized), i)
               then t.requests[i].phase == Done && t.flights == s.flights && t.refreshPromise == s.refreshPromise
               else if s.refreshPromise.Some?
               then t.requests[i].phase == Waiting(s.refreshPromise.value) && t.flights == s.flights
                    && t.refreshPromise == s.refreshPromise
               else t.requests[i].phase == Waiting(|s.flights|) && t.refreshPromise == Some(|s.flights|)
                    && t.flights == s.flights + [Flight(Sent(s.clientToken.value), false)]
  {
  }

  // A fetch that fails: on the retry the tokens are cleared, on the first fetch they are kept.
  lemma FailureMeaning(s: State, i: nat)
    requires Enabled(s, FailFetch(i))
    ensures var t := Apply(s, FailFetch(i));
            && t.requests == s.requests[i := s.requests[i].(phase := Done)] && t.flights == s.flights
            && t.clientToken == if s.requests[i].phase.First? then s.clientToken else None
  {
  }

  // A request whose refresh settles: it fetches once more, or it ends and the tokens are cleared.
  lemma ResumeMeaning(s: State, i: nat)
    requires Enabled(s, Resume(i))
    ensures var r, t := s.requests[i], Apply(s, Resume(i));
            if s.flights[r.phase.flight].stage == Settled(None)
            then t.requests[i] == r.(phase := Done) && t.clientToken == None
            else t.requests[i] == r.(phase := Retrying, fetches := r.fetches + 1) && t.clientToken == s.clientToken
  {
  }

  // A step that sends a refresh is a 401 of a first fetch.
  lemma FlightStep(s: State, a: Action)
    requires Enabled(s, a)
    ensures |s.flights| <= |Apply(s, a).flights| <= |s.flights| + 1
    ensures |Apply(s, a).flights| > |s.flights| ==> a.Respond? && FirstUnauthorized(s, a, a.request)
  {
    if a.Respond? { ResponseMeaning(s, a.request, a.unauthorized); }
  }

  // Every refresh of a run was sent because the first fetch of some request came back with 401.
  lemma {:induction false} RefreshHasCause(s: State, trace: seq<Action>, t: State, h: nat)
    returns (k: nat, before: State)
    requires Run(s, trace, t) && |s.flights| <= h < |t.flights|
    ensures k < |trace| && Run(s, trace[..k], before)
    ensures trace[k].Respond? && FirstUnauthorized(before, trace[k], trace[k].request) && |before.flights| == h
    decreases |trace|
  {
    var s1 := Apply(s, trace[0]);
    FlightStep(s, trace[0]);
    if h < |s1.flights| {
      k, before := 0, s;
    } else {
      k, before := RefreshHasCause(s1, trace[1..], t, h);
      assert trace[..k + 1][0] == trace[0] && trace[..k + 1][1..] == trace[1..][..k];
      k := k + 1;
    }
  }

  // The request is being served after a 401: it waits, or it has fetched a second time.
  predicate Served(s: State, i: nat) {
    i < |s.requests| && (s.requests[i].phase.Waiting? || s.requests[i].fetches == 2)
  }

  lemma ServedStep(s: State, a: Action, i: nat)
    requires Inv(s) && NoneRefused(s) && Enabled(s, a) && Served(s, i)
    ensures Served(Apply(s, a), i)
  {
    assert Expected(s.requests[i]);
    match a {
      case Respond(k, u) => ResponseMeaning(s, k, u);
      case FailFetch(k) => FailureMeaning(s, k);
      case Resume(k) =>
        assert !Refused(s.flights[s.requests[k].phase.flight].stage);
        ResumeMeaning(s, k);
      case _ =>
    }
  }

  // Without a logout, a request answered 401 while the client has a token waits for a refresh until
  // it fetches a second time, whatever else happens.
  lemma {:induction false} UnauthorizedIsServed(s: State, trace: seq<Action>, t: State, i: nat)
    requires Inv(s) && NoneRefused(s) && Served(s, i) && Run(s, trace, t) && Logout !in trace
    ensures Served(t, i)
    decreases |trace|
  {
    if trace != [] {
      var s1 := Apply(s, trace[0]);
      StepKeepsSingleFlight(s, trace[0]);
      StepKeepsTokens(s, trace[0]);
      StepKeepsFetches(s, trace[0]);
      StepRefusesNone(s, trace[0]);
      ServedStep(s, trace[0], i);
      assert Logout !in trace[1..];
      UnauthorizedIsServed(s1, trace[1..], t, i);
    }
  }

  lemma UnauthorizedWaits(s: State, i: nat)
    requires Enabled(s, Respond(i, true)) && FirstUnauthorized(s, Respond(i, true), i)
    ensures Served(Apply(s, Respond(i, true)), i)
  {
    ResponseMeaning(s, i, true);
  }

  // ---------------------------------------------------------------------
  // The session's mutable state
  // ---------------------------------------------------------------------

  class Session {
    var clientToken: Option<Token>
    var refreshPromise: Option<nat>
    var flights: seq<Flight>
    var requests: seq<Request>
    var serverToken: Option<Token>
    var nextToken: Token

    function Current(): State
      reads this
    {
      State(clientToken, refreshPromise, flights, requests, serverToken, nextToken)
    }

    ghost predicate Valid()
      reads this
    {
      Inv(Current())
    }

    constructor (token: Token)
      ensures Valid() && Current() == LoggedIn(token)
    {
      clientToken, serverToken, nextToken := Some(token), Some(token), token + 1;
      refreshPromise, flights, requests := None, [], [];
    }

    // FetchClient.refreshTokens.
    method RefreshTokens() returns (h: nat)
      requires Valid() && clientToken.Some?
      modifies this`refreshPromise, this`flights
      ensures refreshPromise == Some(h)
      ensures old(refreshPromise).Some? ==> h == old(refreshPromise.value) && flights == old(flights)
      ensures old(refreshPromise).None? ==>
                h == old(|flights|) && flights == old(flights) + [Flight(Sent(clientToken.value), false)]
    {
      if refreshPromise.Some? { return refreshPromise.value; }
      h := |flights|;
      flights := flights + [Flight(Sent(clientToken.value), false)];
      refreshPromise := Some(h);
    }

    // FetchClient.request after a response.
    method Receive(i: nat, unauthorized: bool)
      requires Valid() && Enabled(Current(), Respond(i, unauthorized))
      modifies this
      ensures Valid() && Current() == Apply(old(Current()), Respond(i, unauthorized))
      ensures requests[i].phase.Waiting?
              <==> old(requests[i].phase.First?) && unauthorized && !old(requests[i].skipAuth) && clientToken.Some?
      ensures !requests[i].phase.Waiting? ==> requests[i].phase == Done && flights == old(flights)
      ensures requests[i].fetches == old(requests[i].fetches) && clientToken == old(clientToken)
    {
      StepKeepsSingleFlight(Current(), Respond(i, unauthorized));
      StepKeepsTokens(Current(), Respond(i, unauthorized));
      StepKeepsFetches(Current(), Respond(i, unauthorized));
      var phase := Done;
      if requests[i].phase.First? && unauthorized && !requests[i].skipAuth && clientToken.Some? {
        var h := RefreshTokens();
        phase := Waiting(h);
      }
      requests := requests[i := requests[i].(phase := phase)];
    }

    // The rest of the refresh call: store the new pair or reject.
    method ReceiveTokens(h: nat)
      requires Valid() && Enabled(Current(), Deliver(h))
      modifies this
      ensures Valid() && Current() == Apply(old(Current()), Deliver(h))
    {
      StepKeepsSingleFlight(Current(), Deliver(h));
      StepKeepsTokens(Current(), Deliver(h));
      StepKeepsFetches(Current(), Deliver(h));
      var result := flights[h].stage.result;
      if result.Some? { clientToken := result; }
      flights := flights[h := flights[h].(stage := Settled(result))];
    }

    // FetchClient.request after the refresh it awaited.
    method Continue(i: nat)
      requires Valid() && Enabled(Current(), Resume(i))
      modifies this
      ensures Valid() && Current() == Apply(old(Current()), Resume(i))
      ensures requests[i].fetches <= 2
    {
      StepKeepsSingleFlight(Current(), Resume(i));
      StepKeepsTokens(Current(), Resume(i));
      StepKeepsFetches(Current(), Resume(i));
      var r := requests[i];
      assert Expected(r);
      if flights[r.phase.flight].stage.outcome.Some? {
        requests := requests[i := r.(phase := Retrying, fetches := r.fetches + 1)];
      } else {
        clientToken := None;
        requests := requests[i := r.(phase := Done)];
      }
    }

    // AuthService.refreshTokens: compare, then store the hash of the next token.
    method CompareToken(h: nat)
      requires Valid() && Enabled(Current(), Check(h))
      modifies this
      ensures Valid() && Current() == Apply(old(Current()), Check(h))
      ensures flights[h].stage.Checked? <==> serverToken.Some?
    {
      StepKeepsSingleFlight(Current(), Check(h));
      StepKeepsTokens(Current(), Check(h));
      StepKeepsFetches(Current(), Check(h));
      UnsettledIsPromise(Current(), h);
      var t := flights[h].stage.token;
      if serverToken == Some(t) {
        flights := flights[h := flights[h].(stage := Checked(t))];
      } else {
        flights := flights[h := flights[h].(stage := Answered(None))];
      }
    }

    method StoreNextToken(h: nat)
      requires Valid() && Enabled(Current(), Rotate(h))
      modifies this
      ensures Valid() && Current() == Apply(old(Current()), Rotate(h))
    {
      StepKeepsSingleFlight(Current(), Rotate(h));
      StepKeepsTokens(Current(), Rotate(h));
      StepKeepsFetches(Current(), Rotate(h));
      serverToken := Some(nextToken);
      flights := flights[h := flights[h].(stage := Answered(Some(nextToken)))];
      nextToken := nextToken + 1;
    }
  }
}
