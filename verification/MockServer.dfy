/** The mock server object: the configuration, and the state behind its one lock. Each method is a
    critical section, proved against the endpoint functions. */
module MockServerObject {
  import opened Wrappers
  import opened Bytes
  import opened Time
  import opened Config
  import opened Errors
  import opened StoreModel
  import Authorize
  import ClientAuth
  import Form
  import Names
  import Store
  import TokenEndpoint

  /** The new credentials that the draws hold. */
  function FreshFrom(s: StoreState, draws: Store.Draws): TokenEndpoint.Fresh
    requires Store.SuppliesTwo(Credentials(s), draws)
  {
    TokenEndpoint.Fresh(Store.FreshAccess(Credentials(s), draws), Store.FreshRefresh(Credentials(s), draws))
  }

  class MockServer {
    const config: MockConfig
    const clock: Clock
    const store: Store.Store
    var userDecision: UserDecision

    ghost predicate Valid()
      reads this, store
    {
      store.Valid()
    }

    function State(): Server
      reads this, clock, store
    {
      Server(store.State(), clock.elapsed)
    }

    constructor (config: MockConfig)
      ensures Valid() && fresh(clock) && fresh(store)
      ensures this.config == config && userDecision == config.userDecision
      ensures State() == Boot(config.accessTokenLifetime, config.authorizationCodeLifetime)
    {
      this.config := config;
      clock := new Clock();
      store := new Store.Store(config.accessTokenLifetime, config.authorizationCodeLifetime);
      userDecision := config.userDecision;
    }

    method AdvanceClock(delta: Duration)
      requires Valid()
      modifies clock
      ensures Valid() && State() == Step(old(State()), AdvanceOp(delta)).0
    {
      clock.Advance(delta);
    }

    method SetUserDecision(decision: UserDecision)
      requires Valid()
      modifies this
      ensures Valid() && State() == old(State()) && userDecision == decision
    {
      userDecision := decision;
    }

    method TokenInfo(accessToken: Credential) returns (info: Option<StoreModel.TokenInfo>)
      ensures Info(info) == Step(State(), InfoOp(accessToken)).1
    {
      info := store.AccessTokenInfo(accessToken, clock.elapsed);
    }

    method HandleAuthorize(request: Authorize.AuthorizeRequest, draws: Store.Draws) returns (r: Result<Text, ApiError>)
      requires Valid() && Store.Supplies(Credentials(State().store), draws)
      modifies store
      ensures Valid()
      ensures var drawn := Store.FreshAccess(Credentials(old(State()).store), draws);
              (State(), r) == Authorize.Authorize(config, userDecision, old(State()), request, drawn)
    {
      if !Authorize.Allowed(request) {
        return Err(MethodNotAllowed);
      }
      var params := Authorize.RequestParams(request);
      var client := Authorize.KnownClient(config, params);
      if client.Err? {
        return Err(client.error);
      }
      var base := Authorize.RegisteredRedirectUri(client.value, params);
      if base.Err? {
        return Err(base.error);
      }
      var state := Form.First(params, Names.STATE);
      var challenge := Authorize.Validate(params);
      if challenge.Err? {
        return Authorize.RedirectTo(base.value, (Names.ERROR, challenge.error), state);
      }
      if userDecision.Deny? {
        return Authorize.RedirectTo(base.value, (Names.ERROR, Names.ACCESS_DENIED), state);
      }
      var code := store.IssueCode(client.value.clientId, base.value, challenge.value, clock.elapsed, draws);
      return Authorize.RedirectTo(base.value, (Names.CODE, code.text), state);
    }

    method HandleToken(request: TokenEndpoint.TokenRequest, draws: Store.Draws)
      returns (r: Result<TokenEndpoint.TokenResponse, ApiError>)
      requires Valid() && Store.SuppliesTwo(Credentials(State().store), draws)
      modifies store
      ensures Valid()
      ensures (State(), r) == TokenEndpoint.Token(config, old(State()), request, FreshFrom(old(State()).store, draws))
    {
      if request.httpMethod != "POST" {
        return Err(MethodNotAllowed);
      }
      if !TokenEndpoint.IsFormContent(request.contentType) {
        return Err(UnsupportedMediaType);
      }
      if |request.body| > TokenEndpoint.MAX_BODY_BYTES {
        return Err(PayloadTooLarge);
      }
      var params := Form.Parse(request.body);
      var repeats := AnyRepeated(params);
      if repeats {
        return Err(InvalidRequest);
      }
      var client := ClientAuth.Authenticate(config.clients, request.authorization, params);
      if client.Err? {
        return Err(client.error);
      }
      r := Dispatch(client.value, params, draws);
    }

    method AnyRepeated(params: Form.Params) returns (repeats: bool)
      ensures repeats <==> TokenEndpoint.Repeats(params)
    {
      for k := 0 to |TokenEndpoint.KNOWN_PARAMETERS|
        invariant forall j | 0 <= j < k :: Form.Unique(params, TokenEndpoint.KNOWN_PARAMETERS[j]).Ok?
      {
        if Form.Unique(params, TokenEndpoint.KNOWN_PARAMETERS[k]).Err? {
          return true;
        }
      }
      return false;
    }

    method Dispatch(client: ClientAuth.Authenticated, params: Form.Params, draws: Store.Draws)
      returns (r: Result<TokenEndpoint.TokenResponse, ApiError>)
      requires Valid() && Store.SuppliesTwo(Credentials(State().store), draws)
      modifies store
      ensures Valid()
      ensures var before := old(State());
              (State(), r) == TokenEndpoint.Dispatch(config, before, client, params, FreshFrom(before.store, draws))
    {
      var grant := Form.Value(params, Names.GRANT_TYPE);
      if grant.None? {
        return Err(InvalidRequest);
      }
      if grant.value == Names.AUTHORIZATION_CODE {
        r := AuthorizationCode(client, params, draws);
      } else if grant.value == Names.REFRESH_TOKEN {
        r := RefreshToken(client, params, draws);
      } else if grant.value == Names.CLIENT_CREDENTIALS {
        r := ClientCredentials(client, draws);
      } else {
        r := Err(UnsupportedGrant);
      }
    }

    method AuthorizationCode(client: ClientAuth.Authenticated, params: Form.Params, draws: Store.Draws)
      returns (r: Result<TokenEndpoint.TokenResponse, ApiError>)
      requires Valid() && Store.SuppliesTwo(Credentials(State().store), draws)
      modifies store
      ensures Valid()
      ensures var before := old(State());
              (State(), r) ==
              TokenEndpoint.AuthorizationCode(config, before, client.client, params, FreshFrom(before.store, draws))
    {
      var code, redirectUri := Form.Value(params, Names.CODE), Form.Value(params, Names.REDIRECT_URI);
      var codeVerifier := Form.Value(params, Names.CODE_VERIFIER);
      if code.None? || redirectUri.None? || codeVerifier.None? {
        return Err(InvalidRequest);
      }
      var clientId := client.client.clientId;
      var request := CodeRedemption(clientId, Credential(code.value), redirectUri.value, codeVerifier.value);
      var issued := store.RedeemCode(request, clock.elapsed, draws);
      r := TokenEndpoint.Respond(issued, config.accessTokenLifetime);
    }

    method RefreshToken(client: ClientAuth.Authenticated, params: Form.Params, draws: Store.Draws)
      returns (r: Result<TokenEndpoint.TokenResponse, ApiError>)
      requires Valid() && Store.SuppliesTwo(Credentials(State().store), draws)
      modifies store
      ensures Valid()
      ensures var before := old(State());
              (State(), r) ==
              TokenEndpoint.RefreshGrant(config, before, client.client, params, FreshFrom(before.store, draws))
    {
      var refreshToken := Form.Value(params, Names.REFRESH_TOKEN);
      if refreshToken.None? {
        return Err(InvalidRequest);
      }
      var issued := store.Refresh(client.client.clientId, Credential(refreshToken.value), clock.elapsed, draws);
      r := TokenEndpoint.Respond(issued, config.accessTokenLifetime);
    }

    method ClientCredentials(client: ClientAuth.Authenticated, draws: Store.Draws)
      returns (r: Result<TokenEndpoint.TokenResponse, ApiError>)
      requires Valid() && Store.SuppliesTwo(Credentials(State().store), draws)
      modifies store
      ensures Valid()
      ensures var before := old(State());
              (State(), r) == TokenEndpoint.ClientCredentials(config, before, client, FreshFrom(before.store, draws))
    {
      if client.via != ClientAuth.Basic {
        return Err(InvalidClientCredentials);
      }
      var issued := store.IssueAppToken(client.client.clientId, clock.elapsed, draws);
      r := Ok(TokenEndpoint.ResponseTo(issued, config.accessTokenLifetime));
    }
  }
}
