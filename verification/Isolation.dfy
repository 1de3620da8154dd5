/** Sessions on the wire: erasing the requests of one authorization leaves every other response as
    it was. */
module Isolation {
  import opened Wrappers
  import opened Config
  import opened StoreModel
  import opened Independence
  import opened Requests
  import Authorize
  import ClientAuth
  import Form
  import StoreInvariant
  import TokenEndpoint

  /** The request issues the code, presents it, refreshes or inspects a token descended from it. */
  predicate RequestOnSession(config: MockConfig, s: State, request: Request, c: Credential) {
    OnSession(s.server, StepOf(config, s.decision, request), c)
  }

  /** The run without the session's requests. */
  function EraseRequests(config: MockConfig, s: State, requests: seq<Request>, c: Credential): seq<Request>
    decreases |requests|
  {
    if requests == [] then []
    else
      (if RequestOnSession(config, s, requests[0], c) then [] else [requests[0]])
      + EraseRequests(config, Serve(config, s, requests[0]).0, requests[1..], c)
  }

  /** The responses of the full run to the requests that are kept. */
  function OtherResponses(config: MockConfig, s: State, requests: seq<Request>, c: Credential): seq<Response>
    decreases |requests|
  {
    if requests == [] then []
    else
      (if RequestOnSession(config, s, requests[0], c) then [] else [Serve(config, s, requests[0]).1])
      + OtherResponses(config, Serve(config, s, requests[0]).0, requests[1..], c)
  }

  // ---- a response is determined by the request and the answer of its step ----

  lemma AuthorizeIgnoresStore(config: MockConfig, decision: UserDecision, w: Server, v: Server,
                              request: Authorize.AuthorizeRequest, code: Credential)
    ensures Authorize.Authorize(config, decision, v, request, code).1
         == Authorize.Authorize(config, decision, w, request, code).1
  {
  }

  lemma DispatchWithoutStep(config: MockConfig, w: Server, v: Server, a: ClientAuth.Authenticated,
                            params: Form.Params, drawn: TokenEndpoint.Fresh)
    requires TokenEndpoint.StepAskedBy(a, params, drawn) == None
    ensures TokenEndpoint.Dispatch(config, v, a, params, drawn).1
         == TokenEndpoint.Dispatch(config, w, a, params, drawn).1
  {
  }

  lemma TokenWithoutStep(config: MockConfig, w: Server, v: Server, token: TokenEndpoint.TokenRequest,
                         drawn: TokenEndpoint.Fresh)
    requires GrantAskedBy(config, token, drawn) == None
    ensures TokenEndpoint.Token(config, v, token, drawn).1 == TokenEndpoint.Token(config, w, token, drawn).1
  {
    var params := Form.Parse(token.body);
    var client := ClientAuth.Authenticate(config.clients, token.authorization, params);
    if client.Ok? && TokenEndpoint.Admitted(config, token, client.value) {
      DispatchWithoutStep(config, w, v, client.value, params, drawn);
    }
  }

  lemma SameTokens(config: MockConfig, w: Server, v: Server, token: TokenEndpoint.TokenRequest,
                   drawn: TokenEndpoint.Fresh, op: Op)
    requires op == OrIdle(GrantAskedBy(config, token, drawn)) && Step(v, op).1 == Step(w, op).1
    ensures TokenEndpoint.Token(config, v, token, drawn).1 == TokenEndpoint.Token(config, w, token, drawn).1
  {
    GrantIsDone(config, w, token, drawn);
    GrantIsDone(config, v, token, drawn);
    if GrantAskedBy(config, token, drawn) == None {
      TokenWithoutStep(config, w, v, token, drawn);
    }
  }

  lemma SameResponse(config: MockConfig, s: State, t: State, request: Request, op: Op)
    requires t.decision == s.decision && op == StepOf(config, s.decision, request)
    requires Step(t.server, op).1 == Step(s.server, op).1
    ensures Serve(config, t, request).1 == Serve(config, s, request).1
  {
    match request
    case ToAuthorize(authorize, code) =>
      AuthorizeIgnoresStore(config, s.decision, s.server, t.server, authorize, code);
    case ToToken(token, drawn) => SameTokens(config, s.server, t.server, token, drawn, op);
    case _ =>
  }

  // ---- runs of requests ----

  ghost predicate Alike(s: State, t: State, c: Credential, rho: Renaming) {
    t.decision == s.decision && Sim(s.server, t.server, c, rho) && StoreInvariant.Valid(s.server.store)
  }

  /** A request of the session is not noticed outside it. */
  lemma SessionRequest(config: MockConfig, s: State, t: State, request: Request, c: Credential, rho: Renaming)
    requires Alike(s, t, c, rho) && NewDraws(s.server, request) && RequestOnSession(config, s, request, c)
    ensures var op := StepOf(config, s.decision, request);
            Alike(Serve(config, s, request).0, t, c, Renamed(s.server, t.server, op, c, rho))
  {
    var op := StepOf(config, s.decision, request);
    RequestIsStep(config, s, request);
    FollowStep(s.server, t.server, op, c, rho);
    StoreInvariant.StepValid(s.server, op);
  }

  /** Any other request gets the same response with and without the session. */
  lemma OtherRequest(config: MockConfig, s: State, t: State, request: Request, c: Credential, rho: Renaming)
    requires Alike(s, t, c, rho) && NewDraws(s.server, request) && !RequestOnSession(config, s, request, c)
    ensures var (s', response) := Serve(config, s, request);
            && NewDraws(t.server, request)
            && Serve(config, t, request).1 == response
            && Alike(s', Serve(config, t, request).0, c,
                     Renamed(s.server, t.server, StepOf(config, s.decision, request), c, rho))
  {
    var op := StepOf(config, s.decision, request);
    FewerCredentials(s.server, t.server, c, rho);
    RequestIsStep(config, s, request);
    RequestIsStep(config, t, request);
    FollowStep(s.server, t.server, op, c, rho);
    StoreInvariant.StepValid(s.server, op);
    SameAnswer(s.server, t.server, op, c, rho);
    SameResponse(config, s, t, request, op);
  }

  /** A request that is kept heads the erased run. */
  lemma KeptHead(config: MockConfig, t: State, request: Request, rest: seq<Request>)
    ensures ServeAll(config, t, [request] + rest) == ServeAll(config, Serve(config, t, request).0, rest)
    ensures Responses(config, t, [request] + rest)
         == [Serve(config, t, request).1] + Responses(config, Serve(config, t, request).0, rest)
    ensures AllNew(config, t, [request] + rest)
        <==> NewDraws(t.server, request) && AllNew(config, Serve(config, t, request).0, rest)
  {
    assert ([request] + rest)[1..] == rest;
  }

  lemma {:induction false} RequestsIsolated(config: MockConfig, s: State, t: State, requests: seq<Request>,
                                            c: Credential, rho: Renaming)
    returns (rho': Renaming)
    requires Alike(s, t, c, rho) && AllNew(config, s, requests)
    ensures var erased := EraseRequests(config, s, requests, c);
            && AllNew(config, t, erased)
            && Responses(config, t, erased) == OtherResponses(config, s, requests, c)
            && Alike(ServeAll(config, s, requests), ServeAll(config, t, erased), c, rho')
    decreases |requests|
  {
    if requests == [] {
      rho' := rho;
    } else {
      var request, rest, s' := requests[0], requests[1..], Serve(config, s, requests[0]).0;
      var next := Renamed(s.server, t.server, StepOf(config, s.decision, request), c, rho);
      if RequestOnSession(config, s, request, c) {
        SessionRequest(config, s, t, request, c, rho);
        rho' := RequestsIsolated(config, s', t, rest, c, next);
        assert EraseRequests(config, s, requests, c) == EraseRequests(config, s', rest, c);
      } else {
        OtherRequest(config, s, t, request, c, rho);
        rho' := RequestsIsolated(config, s', Serve(config, t, request).0, rest, c, next);
        KeptHead(config, t, request, EraseRequests(config, s', rest, c));
      }
    }
  }

  /** Erasing the requests of one authorization from any run of the whole server leaves every other
      response as it was, and whatever is sent afterwards outside the session is answered alike. */
  lemma ResponsesIndependent(config: MockConfig, requests: seq<Request>, c: Credential)
    requires AllNew(config, Started(config), requests)
    ensures var erased := EraseRequests(config, Started(config), requests, c);
            var end, other := ServeAll(config, Started(config), requests), ServeAll(config, Started(config), erased);
            && AllNew(config, Started(config), erased)
            && Responses(config, Started(config), erased) == OtherResponses(config, Started(config), requests, c)
            && forall request | !RequestOnSession(config, end, request, c) ::
                 Serve(config, other, request).1 == Serve(config, end, request).1
  {
    var start := Started(config);
    StoreInvariant.NewStoreValid(config.accessTokenLifetime, config.authorizationCodeLifetime);
    SimAtBoot(config.accessTokenLifetime, config.authorizationCodeLifetime, c);
    var rho := RequestsIsolated(config, start, start, requests, c, map[]);
    var erased := EraseRequests(config, start, requests, c);
    var end, other := ServeAll(config, start, requests), ServeAll(config, start, erased);
    forall request | !RequestOnSession(config, end, request, c)
      ensures Serve(config, other, request).1 == Serve(config, end, request).1
    {
      SameAnswer(end.server, other.server, StepOf(config, end.decision, request), c, rho);
      SameResponse(config, end, other, request, StepOf(config, end.decision, request));
    }
  }
}
