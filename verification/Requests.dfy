/** Whole runs of requests, as the network sends them, with the responses they get. Each request is
    one step of the store machine (`Idle` when it asks for none), so a request and its step have
    the same place in their runs and what is proved of answers holds of responses. */
module Requests {
  import opened Wrappers
  import opened Bytes
  import opened Time
  import opened Config
  import opened Errors
  import opened StoreModel
  import Authorize
  import ClientAuth
  import Eager
  import Form
  import Names
  import Runs
  import StoreInvariant
  import TokenEndpoint

  datatype Request =
    | ToAuthorize(authorize: Authorize.AuthorizeRequest, code: Credential)
    | ToToken(token: TokenEndpoint.TokenRequest, drawn: TokenEndpoint.Fresh)
    | Inspect(accessToken: Credential)
    | AdvanceClock(delta: Duration)
    | SetUserDecision(decision: UserDecision)

  datatype Response =
    | Redirect(location: Result<Text, ApiError>)
    | Tokens(tokens: Result<TokenEndpoint.TokenResponse, ApiError>)
    | Inspected(info: Option<TokenInfo>)
    | Silence

  datatype State = State(decision: UserDecision, server: Server)

  function Serve(config: MockConfig, s: State, request: Request): (State, Response) {
    match request
    case ToAuthorize(authorize, code) =>
      var (server, location) := Authorize.Authorize(config, s.decision, s.server, authorize, code);
      (s.(server := server), Redirect(location))
    case ToToken(token, drawn) =>
      var (server, tokens) := TokenEndpoint.Token(config, s.server, token, drawn);
      (s.(server := server), Tokens(tokens))
    case Inspect(accessToken) => (s, Inspected(AccessTokenInfo(s.server.store, accessToken, s.server.now)))
    case AdvanceClock(delta) => (s.(server := Step(s.server, AdvanceOp(delta)).0), Silence)
    case SetUserDecision(decision) => (s.(decision := decision), Silence)
  }

  function ServeAll(config: MockConfig, s: State, requests: seq<Request>): State
    decreases |requests|
  {
    if requests == [] then s else ServeAll(config, Serve(config, s, requests[0]).0, requests[1..])
  }

  function Responses(config: MockConfig, s: State, requests: seq<Request>): (responses: seq<Response>)
    ensures |responses| == |requests|
    decreases |requests|
  {
    if requests == [] then []
    else [Serve(config, s, requests[0]).1] + Responses(config, Serve(config, s, requests[0]).0, requests[1..])
  }

  // ---- the step of each request ----

  const Idle: Op := AdvanceOp(0)

  /** The client, URI and challenge of a request that a user is asked about. */
  function CodeAskedBy(config: MockConfig, authorize: Authorize.AuthorizeRequest, code: Credential): Option<Op> {
    var params := Authorize.RequestParams(authorize);
    var client := Authorize.KnownClient(config, params);
    if !Authorize.Allowed(authorize) || client.Err? then None
    else
      var base := Authorize.RegisteredRedirectUri(client.value, params);
      var challenge := Authorize.Validate(params);
      if base.Err? || challenge.Err? then None
      else Some(IssueCodeOp(client.value.clientId, base.value, challenge.value, code))
  }

  /** The step an admitted token request asks for, granted or not. */
  function GrantAskedBy(config: MockConfig, token: TokenEndpoint.TokenRequest, drawn: TokenEndpoint.Fresh): Option<Op> {
    var params := Form.Parse(token.body);
    var client := ClientAuth.Authenticate(config.clients, token.authorization, params);
    if client.Ok? && TokenEndpoint.Admitted(config, token, client.value)
    then TokenEndpoint.StepAskedBy(client.value, params, drawn) else None
  }

  function OrIdle(op: Option<Op>): Op {
    if op.Some? then op.value else Idle
  }

  function StepOf(config: MockConfig, decision: UserDecision, request: Request): Op {
    match request
    case ToAuthorize(authorize, code) =>
      if decision.Approve? then OrIdle(CodeAskedBy(config, authorize, code)) else Idle
    case ToToken(token, drawn) => OrIdle(GrantAskedBy(config, token, drawn))
    case Inspect(accessToken) => InfoOp(accessToken)
    case AdvanceClock(delta) => AdvanceOp(delta)
    case SetUserDecision(_) => Idle
  }

  /** The user's decision only changes by request. */
  function Decided(decision: UserDecision, request: Request): UserDecision {
    if request.SetUserDecision? then request.decision else decision
  }

  function StepsOf(config: MockConfig, decision: UserDecision, requests: seq<Request>): (ops: seq<Op>)
    ensures |ops| == |requests|
    decreases |requests|
  {
    if requests == [] then []
    else [StepOf(config, decision, requests[0])] + StepsOf(config, Decided(decision, requests[0]), requests[1..])
  }

  // ---- what a response tells of its step ----

  /** A redirect with a code tells of the code issued. */
  predicate TellsCode(authorize: Authorize.AuthorizeRequest, base: Text, code: Credential,
                      location: Result<Text, ApiError>) {
    var state := Form.First(Authorize.RequestParams(authorize), Names.STATE);
    location == Authorize.RedirectTo(base, (Names.CODE, code.text), state)
  }

  /** Tokens tell of a grant, `invalid_grant` of a refusal, any other error of no step at all. */
  ghost predicate Tells(config: MockConfig, decision: UserDecision, request: Request, response: Response,
                        answer: Answer) {
    match request
    case ToAuthorize(authorize, code) =>
      var op := StepOf(config, decision, request);
      && response.Redirect?
      && (op.IssueCodeOp? ==> answer == Code(code) && TellsCode(authorize, op.redirectUri, code, response.location))
      && (!op.IssueCodeOp? ==>
            && answer == Done
            && (response.location.Ok? ==>
                  Authorize.ErrorRedirect(config, Authorize.RequestParams(authorize), response.location.value)))
    case ToToken(_, _) =>
      && response.Tokens?
      && (match answer
          case Grant(issued) => response.tokens == Ok(TokenEndpoint.ResponseTo(issued, config.accessTokenLifetime))
          case Refused => response.tokens == Err(InvalidGrantError)
          case Done => response.tokens.Err? && response.tokens.error != InvalidGrantError
          case _ => false)
    case Inspect(_) => response.Inspected? && answer == Info(response.info)
    case _ => response == Silence && answer == Done
  }

  /** The random source never repeats a credential: what a request would use was never issued. */
  predicate NewDraws(w: Server, request: Request) {
    match request
    case ToAuthorize(_, code) => code !in Credentials(w.store)
    case ToToken(_, drawn) =>
      && drawn.access !in Credentials(w.store) && drawn.refresh !in Credentials(w.store)
      && drawn.access != drawn.refresh
    case _ => true
  }

  predicate AllNew(config: MockConfig, s: State, requests: seq<Request>)
    decreases |requests|
  {
    requests == [] ||
    (NewDraws(s.server, requests[0]) && AllNew(config, Serve(config, s, requests[0]).0, requests[1..]))
  }

  // ---- one request, one step ----

  lemma AskedIsWellFormed(config: MockConfig, authorize: Authorize.AuthorizeRequest, code: Credential)
    returns (client: RegisteredClient)
    requires CodeAskedBy(config, authorize, code).Some?
    ensures var op := CodeAskedBy(config, authorize, code).value;
            && client.clientId == op.clientId
            && Authorize.WellFormed(config, authorize, client, op.redirectUri, op.codeChallenge)
  {
    var params, op := Authorize.RequestParams(authorize), CodeAskedBy(config, authorize, code).value;
    client := Authorize.KnownClient(config, params).value;
    Authorize.TrustedExact(config, params, client, op.redirectUri);
    Authorize.ValidateExact(params, op.codeChallenge);
  }

  lemma AuthorizeTells(config: MockConfig, s: State, authorize: Authorize.AuthorizeRequest, code: Credential)
    requires code !in Credentials(s.server.store)
    ensures var request := ToAuthorize(authorize, code);
            var op, (s', response) := StepOf(config, s.decision, request), Serve(config, s, request);
            && Drawn(s.server, op) && s'.server == Step(s.server, op).0
            && Tells(config, s.decision, request, response, Step(s.server, op).1)
  {
    var op := StepOf(config, s.decision, ToAuthorize(authorize, code));
    if op.IssueCodeOp? {
      var client := AskedIsWellFormed(config, authorize, code);
      Authorize.ApprovedIssues(config, s.server, authorize, client, op.redirectUri, op.codeChallenge, code);
    } else {
      forall client, base, challenge | s.decision.Approve?
        ensures !Authorize.WellFormed(config, authorize, client, base, challenge)
      {
        if Authorize.WellFormed(config, authorize, client, base, challenge) {
        }
      }
      Authorize.OthersConsumeNothing(config, s.decision, s.server, authorize, code);
    }
  }

  lemma TokenTells(config: MockConfig, s: State, request: Request, op: Option<Op>)
    requires request.ToToken? && NewDraws(s.server, request)
    requires op == GrantAskedBy(config, request.token, request.drawn)
    ensures var (s', response) := Serve(config, s, request);
            && StepOf(config, s.decision, request) == OrIdle(op)
            && s'.server == Step(s.server, OrIdle(op)).0
            && Tells(config, s.decision, request, response, Step(s.server, OrIdle(op)).1)
  {
    GrantIsDone(config, s.server, request.token, request.drawn);
  }

  /** A token request's step hands out its own draws. */
  predicate UsesOnly(op: Op, drawn: TokenEndpoint.Fresh) {
    match op
    case RedeemOp(_, access, refresh) => access == drawn.access && refresh == drawn.refresh
    case RefreshOp(_, _, access, refresh) => access == drawn.access && refresh == drawn.refresh
    case AppTokenOp(_, access) => access == drawn.access
    case AdvanceOp(_) => true
    case _ => false
  }

  lemma GrantUses(config: MockConfig, token: TokenEndpoint.TokenRequest, drawn: TokenEndpoint.Fresh)
    ensures UsesOnly(OrIdle(GrantAskedBy(config, token, drawn)), drawn)
  {
  }

  lemma TokenDrawn(w: Server, drawn: TokenEndpoint.Fresh, op: Op)
    requires UsesOnly(op, drawn)
    requires drawn.access !in Credentials(w.store) && drawn.refresh !in Credentials(w.store)
    requires drawn.access != drawn.refresh
    ensures Drawn(w, op)
  {
  }

  lemma GrantIsDone(config: MockConfig, w: Server, token: TokenEndpoint.TokenRequest, drawn: TokenEndpoint.Fresh)
    ensures TokenEndpoint.DoesStep(config, w, TokenEndpoint.Token(config, w, token, drawn),
                                   GrantAskedBy(config, token, drawn))
  {
    var client := ClientAuth.Authenticate(config.clients, token.authorization, Form.Parse(token.body));
    if client.Ok? && TokenEndpoint.Admitted(config, token, client.value) {
      TokenEndpoint.TokenIsOneStep(config, w, token, drawn);
    } else {
      TokenEndpoint.OthersAreRefused(config, w, token, drawn);
    }
  }

  /** A request does what its step does, and its response tells what the step answers. */
  lemma RequestIsStep(config: MockConfig, s: State, request: Request)
    requires NewDraws(s.server, request)
    ensures var op, (s', response) := StepOf(config, s.decision, request), Serve(config, s, request);
            && Drawn(s.server, op) && s'.server == Step(s.server, op).0
            && s'.decision == Decided(s.decision, request)
            && Tells(config, s.decision, request, response, Step(s.server, op).1)
  {
    match request
    case ToAuthorize(authorize, code) => AuthorizeTells(config, s, authorize, code);
    case ToToken(token, drawn) =>
      TokenTells(config, s, request, GrantAskedBy(config, token, drawn));
      GrantUses(config, token, drawn);
      TokenDrawn(s.server, drawn, OrIdle(GrantAskedBy(config, token, drawn)));
    case Inspect(_) =>
    case AdvanceClock(_) =>
    case SetUserDecision(_) =>
  }

  // ---- whole runs ----

  /** A run of requests is the run of their steps. */
  lemma {:induction false} RequestsAreSteps(config: MockConfig, s: State, requests: seq<Request>)
    requires AllNew(config, s, requests)
    ensures var ops := StepsOf(config, s.decision, requests);
            ValidRun(s.server, ops) && After(s.server, ops) == ServeAll(config, s, requests).server
    decreases |requests|
  {
    if requests != [] {
      RequestIsStep(config, s, requests[0]);
      RequestsAreSteps(config, Serve(config, s, requests[0]).0, requests[1..]);
    }
  }

  function DecisionAt(decision: UserDecision, requests: seq<Request>, i: nat): UserDecision
    requires i <= |requests|
    decreases i
  {
    if i == 0 then decision else DecisionAt(Decided(decision, requests[0]), requests[1..], i - 1)
  }

  /** The i-th response tells what the i-th step answers, and that step is the i-th request's. */
  lemma {:induction false} ResponseTells(config: MockConfig, s: State, requests: seq<Request>, i: nat)
    requires AllNew(config, s, requests) && i < |requests|
    ensures var ops, decision := StepsOf(config, s.decision, requests), DecisionAt(s.decision, requests, i);
            && ops[i] == StepOf(config, decision, requests[i])
            && Tells(config, decision, requests[i], Responses(config, s, requests)[i], Answers(s.server, ops)[i])
    decreases |requests|
  {
    RequestIsStep(config, s, requests[0]);
    if i > 0 {
      ResponseTells(config, Serve(config, s, requests[0]).0, requests[1..], i - 1);
    }
  }

  lemma {:induction false} StepsPrefix(config: MockConfig, decision: UserDecision, requests: seq<Request>, i: nat)
    requires i <= |requests|
    ensures StepsOf(config, decision, requests[..i]) == StepsOf(config, decision, requests)[..i]
    decreases i
  {
    if i > 0 {
      StepsPrefix(config, Decided(decision, requests[0]), requests[1..], i - 1);
      assert requests[..i] == [requests[0]] + requests[1..][..i - 1];
    }
  }

  lemma {:induction false} NewPrefix(config: MockConfig, s: State, requests: seq<Request>, i: nat)
    requires AllNew(config, s, requests) && i <= |requests|
    ensures AllNew(config, s, requests[..i])
    decreases i
  {
    if i > 0 {
      NewPrefix(config, Serve(config, s, requests[0]).0, requests[1..], i - 1);
      assert requests[..i][1..] == requests[1..][..i - 1];
    }
  }

  /** And before it the server is where the requests before it left it. */
  lemma StepsBefore(config: MockConfig, s: State, requests: seq<Request>, i: nat)
    requires AllNew(config, s, requests) && i <= |requests|
    ensures After(s.server, StepsOf(config, s.decision, requests)[..i]) == ServeAll(config, s, requests[..i]).server
  {
    StepsPrefix(config, s.decision, requests, i);
    NewPrefix(config, s, requests, i);
    RequestsAreSteps(config, s, requests[..i]);
  }

  /** Conservation on the wire: after any run of requests from the start, there are as many unspent
      refresh tokens as redeemed codes, and every family is in order. */
  lemma RequestsConserve(config: MockConfig, requests: seq<Request>)
    requires AllNew(config, Started(config), requests)
    ensures var end := ServeAll(config, Started(config), requests).server.store;
            && |StoreInvariant.RedeemedCodes(end)| == |StoreInvariant.UnspentTokens(end)|
            && StoreInvariant.Valid(end)
  {
    RequestsAreSteps(config, Started(config), requests);
    StoreInvariant.NewStoreValid(config.accessTokenLifetime, config.authorizationCodeLifetime);
    StoreInvariant.RunValid(Started(config).server, StepsOf(config, config.userDecision, requests));
  }

  function Started(config: MockConfig): State {
    State(config.userDecision, Boot(config.accessTokenLifetime, config.authorizationCodeLifetime))
  }

  // ---- the winners, and the eager server ----

  predicate IsGrant(response: Response) {
    response.Tokens? && response.tokens.Ok?
  }

  /** The i-th request is an admitted presentation of the code that its record allows then. */
  predicate EligibleRequest(config: MockConfig, s: State, requests: seq<Request>, c: Credential, i: nat)
    requires c in s.server.store.codes && i < |requests|
  {
    var op := StepOf(config, DecisionAt(s.decision, requests, i), requests[i]);
    var now := ServeAll(config, s, requests[..i]).server.now;
    requests[i].ToToken? && Runs.Eligible(s.server.store.authorizationCodeLifetime, s.server.store.codes[c], c, op, now)
  }

  lemma EligibleOnTheWire(config: MockConfig, s: State, requests: seq<Request>, c: Credential, i: nat)
    requires AllNew(config, s, requests) && c in s.server.store.codes && i < |requests|
    ensures EligibleRequest(config, s, requests, c, i) <==>
            Runs.EligibleAt(s.server, StepsOf(config, s.decision, requests), c, i)
  {
    ResponseTells(config, s, requests, i);
    StepsBefore(config, s, requests, i);
  }

  /** One winner on the wire: a token request for an unredeemed code is answered with tokens if and
      only if it is the first eligible one, whatever else is sent in between. */
  lemma CodeWinnerOnTheWire(config: MockConfig, s: State, requests: seq<Request>, c: Credential, j: nat)
    requires AllNew(config, s, requests) && c in s.server.store.codes && !s.server.store.codes[c].redeemed
    requires j < |requests| && Runs.RedeemsCode(StepOf(config, DecisionAt(s.decision, requests, j), requests[j]), c)
    ensures IsGrant(Responses(config, s, requests)[j]) <==>
            && EligibleRequest(config, s, requests, c, j)
            && forall i | 0 <= i < j :: !EligibleRequest(config, s, requests, c, i)
  {
    var ops := StepsOf(config, s.decision, requests);
    RequestsAreSteps(config, s, requests);
    ResponseTells(config, s, requests, j);
    forall i | 0 <= i <= j
      ensures EligibleRequest(config, s, requests, c, i) <==> Runs.EligibleAt(s.server, ops, c, i)
    {
      EligibleOnTheWire(config, s, requests, c, i);
    }
    Runs.CodeWinner(s.server, ops, c, j);
  }

  /** The i-th request is its owner's admitted use of the refresh token. */
  predicate OwnerRequest(config: MockConfig, s: State, requests: seq<Request>, t: Credential, i: nat)
    requires t in s.server.store.refreshTokens && i < |requests|
  {
    var op := StepOf(config, DecisionAt(s.decision, requests, i), requests[i]);
    Runs.OwnerUse(s.server.store.refreshTokens[t].clientId, t, op)
  }

  /** And for an unspent refresh token: if and only if it is its owner's first use of it, and the
      session is not revoked by then. */
  lemma RefreshWinnerOnTheWire(config: MockConfig, s: State, requests: seq<Request>, t: Credential, j: nat)
    requires AllNew(config, s, requests) && t in s.server.store.refreshTokens && !s.server.store.refreshTokens[t].spent
    requires j < |requests| && Runs.RefreshesToken(StepOf(config, DecisionAt(s.decision, requests, j), requests[j]), t)
    ensures var family := s.server.store.refreshTokens[t].family;
            IsGrant(Responses(config, s, requests)[j]) <==>
            && OwnerRequest(config, s, requests, t, j)
            && (forall i | 0 <= i < j :: !OwnerRequest(config, s, requests, t, i))
            && family !in ServeAll(config, s, requests[..j]).server.store.revokedFamilies
  {
    var ops, owner := StepsOf(config, s.decision, requests), s.server.store.refreshTokens[t].clientId;
    RequestsAreSteps(config, s, requests);
    ResponseTells(config, s, requests, j);
    StepsBefore(config, s, requests, j);
    forall i | 0 <= i <= j ensures OwnerRequest(config, s, requests, t, i) <==> Runs.OwnerUse(owner, t, ops[i]) {
      ResponseTells(config, s, requests, i);
    }
    Runs.RefreshWinner(s.server, ops, t, j);
  }

  /** The responses of the whole server are those of the eager reference. */
  lemma WireRefinesEager(config: MockConfig, requests: seq<Request>, i: nat)
    requires AllNew(config, Started(config), requests) && i < |requests|
    ensures var s, ops := Started(config), StepsOf(config, config.userDecision, requests);
            var eager := Eager.EagerAnswers(
              Eager.EagerBoot(config.accessTokenLifetime, config.authorizationCodeLifetime), ops);
            && |eager| == |requests|
            && Tells(config, DecisionAt(s.decision, requests, i), requests[i],
                     Responses(config, s, requests)[i], eager[i])
  {
    RequestsAreSteps(config, Started(config), requests);
    ResponseTells(config, Started(config), requests, i);
    Eager.LazyRefinesEager(config.accessTokenLifetime, config.authorizationCodeLifetime,
                           StepsOf(config, config.userDecision, requests));
  }
}
