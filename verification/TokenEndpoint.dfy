/** `/oauth/token`: refusals in a fixed order, then at most one step of the store. */
module TokenEndpoint {
  import opened Wrappers
  import opened Bytes
  import opened Time
  import opened Config
  import opened Errors
  import opened Form
  import opened Names
  import opened StoreModel
  import opened ClientAuth

  const MAX_BODY_BYTES := 64 * 1024

  /** The parameters that may not be sent twice. */
  const KNOWN_PARAMETERS: seq<Text> :=
    [GRANT_TYPE, CLIENT_ID, CLIENT_SECRET, CODE, REDIRECT_URI, CODE_VERIFIER, REFRESH_TOKEN]

  /** The parts of a request that the endpoint looks at: the first `Content-Type`, every
      `Authorization`. */
  datatype TokenRequest = TokenRequest(httpMethod: Text, contentType: Option<Text>, authorization: seq<Text>,
                                       body: Text)

  datatype TokenResponse = TokenResponse(accessToken: Credential, refreshToken: Option<Credential>, expiresIn: nat)

  predicate IsFormContent(contentType: Option<Text>) {
    && contentType.Some?
    && VisibleAscii(contentType.value)
    && var mediaType := match SplitOnce(contentType.value, ';')
                        case Some((before, _)) => before
                        case None => contentType.value;
       EqualsIgnoreCase(Trim(mediaType), FORM_MEDIA_TYPE)
  }

  predicate Repeats(params: Params) {
    exists k | 0 <= k < |KNOWN_PARAMETERS| :: Unique(params, KNOWN_PARAMETERS[k]).Err?
  }

  function ResponseTo(issued: Issued, lifetime: Duration): TokenResponse {
    TokenResponse(issued.accessToken, issued.refreshToken, AsSecs(lifetime))
  }

  function Respond(r: Result<Issued, InvalidGrant>, lifetime: Duration): Result<TokenResponse, ApiError> {
    match r
    case Ok(issued) => Ok(ResponseTo(issued, lifetime))
    case Err(_) => Err(InvalidGrantError)
  }

  /** What the random source would give as new credentials. */
  datatype Fresh = Fresh(access: Credential, refresh: Credential)

  function AuthorizationCode(config: MockConfig, w: Server, client: RegisteredClient, params: Params, drawn: Fresh)
    : (Server, Result<TokenResponse, ApiError>)
  {
    match (Value(params, CODE), Value(params, REDIRECT_URI), Value(params, CODE_VERIFIER))
    case (Some(code), Some(redirectUri), Some(codeVerifier)) =>
      var request := CodeRedemption(client.clientId, Credential(code), redirectUri, codeVerifier);
      var (store, r) := RedeemCode(w.store, request, w.now, drawn.access, drawn.refresh);
      (w.(store := store), Respond(r, config.accessTokenLifetime))
    case _ => (w, Err(InvalidRequest))
  }

  function RefreshGrant(config: MockConfig, w: Server, client: RegisteredClient, params: Params, drawn: Fresh)
    : (Server, Result<TokenResponse, ApiError>)
  {
    match Value(params, REFRESH_TOKEN)
    case None => (w, Err(InvalidRequest))
    case Some(token) =>
      var (store, r) := Refresh(w.store, client.clientId, Credential(token), w.now, drawn.access, drawn.refresh);
      (w.(store := store), Respond(r, config.accessTokenLifetime))
  }

  function ClientCredentials(config: MockConfig, w: Server, a: Authenticated, drawn: Fresh)
    : (Server, Result<TokenResponse, ApiError>)
  {
    if a.via != Basic then (w, Err(InvalidClientCredentials))
    else
      var (store, issued) := IssueAppToken(w.store, a.client.clientId, w.now, drawn.access);
      (w.(store := store), Ok(ResponseTo(issued, config.accessTokenLifetime)))
  }

  function Dispatch(config: MockConfig, w: Server, a: Authenticated, params: Params, drawn: Fresh)
    : (Server, Result<TokenResponse, ApiError>)
  {
    match Value(params, GRANT_TYPE)
    case None => (w, Err(InvalidRequest))
    case Some(grant) =>
      if grant == AUTHORIZATION_CODE then AuthorizationCode(config, w, a.client, params, drawn)
      else if grant == REFRESH_TOKEN then RefreshGrant(config, w, a.client, params, drawn)
      else if grant == CLIENT_CREDENTIALS then ClientCredentials(config, w, a, drawn)
      else (w, Err(UnsupportedGrant))
  }

  /** One `/oauth/token` request. */
  function Token(config: MockConfig, w: Server, request: TokenRequest, drawn: Fresh)
    : (Server, Result<TokenResponse, ApiError>)
  {
    if request.httpMethod != "POST" then (w, Err(MethodNotAllowed))
    else if !IsFormContent(request.contentType) then (w, Err(UnsupportedMediaType))
    else if |request.body| > MAX_BODY_BYTES then (w, Err(PayloadTooLarge))
    else
      var params := Parse(request.body);
      if Repeats(params) then (w, Err(InvalidRequest))
      else match Authenticate(config.clients, request.authorization, params)
        case Err(error) => (w, Err(error))
        case Ok(a) => Dispatch(config, w, a, params, drawn)
  }

  // ---- one request, at most one store step ----

  predicate Admitted(config: MockConfig, request: TokenRequest, a: Authenticated) {
    && request.httpMethod == "POST" && IsFormContent(request.contentType) && |request.body| <= MAX_BODY_BYTES
    && !Repeats(Parse(request.body))
    && Authenticate(config.clients, request.authorization, Parse(request.body)) == Ok(a)
  }

  /** The store step a request asks for, on behalf of the client that authenticated. */
  function StepAskedBy(a: Authenticated, params: Params, drawn: Fresh): Option<Op> {
    var grant := Value(params, GRANT_TYPE);
    var code, uri, verifier := Value(params, CODE), Value(params, REDIRECT_URI), Value(params, CODE_VERIFIER);
    if grant == Some(AUTHORIZATION_CODE) && code.Some? && uri.Some? && verifier.Some? then
      var request := CodeRedemption(a.client.clientId, Credential(code.value), uri.value, verifier.value);
      Some(RedeemOp(request, drawn.access, drawn.refresh))
    else if grant == Some(REFRESH_TOKEN) && Value(params, REFRESH_TOKEN).Some? then
      Some(RefreshOp(a.client.clientId, Credential(Value(params, REFRESH_TOKEN).value), drawn.access, drawn.refresh))
    else if grant == Some(CLIENT_CREDENTIALS) && a.via.Basic? then
      Some(AppTokenOp(a.client.clientId, drawn.access))
    else None
  }

  /** The answer carries exactly what the step handed out, or says that the grant is invalid. */
  predicate Reports(r: Result<TokenResponse, ApiError>, answer: Answer, lifetime: Duration) {
    match answer
    case Grant(issued) => r == Ok(ResponseTo(issued, lifetime))
    case Refused => r == Err(InvalidGrantError)
    case _ => false
  }

  lemma GrantsAreDistinct()
    ensures AUTHORIZATION_CODE != REFRESH_TOKEN && AUTHORIZATION_CODE != CLIENT_CREDENTIALS
    ensures REFRESH_TOKEN != CLIENT_CREDENTIALS
  {
  }

  lemma DispatchIsOneStep(config: MockConfig, w: Server, a: Authenticated, params: Params, drawn: Fresh)
    ensures var (w', r) := Dispatch(config, w, a, params, drawn);
            match StepAskedBy(a, params, drawn)
            case Some(op) => w' == Step(w, op).0 && Reports(r, Step(w, op).1, config.accessTokenLifetime)
            case None => w' == w && r.Err? && r.error != InvalidGrantError
  {
    GrantsAreDistinct();
  }

  /** What an admitted request does. */
  predicate DoesStep(config: MockConfig, w: Server, r: (Server, Result<TokenResponse, ApiError>), op: Option<Op>) {
    match op
    case Some(op) => r.0 == Step(w, op).0 && Reports(r.1, Step(w, op).1, config.accessTokenLifetime)
    case None => r.0 == w && r.1.Err? && r.1.error != InvalidGrantError
  }

  lemma AuthenticationErrors(clients: seq<RegisteredClient>, headers: seq<Text>, params: Params)
    ensures var r := Authenticate(clients, headers, params); r.Err? ==> r.error != InvalidGrantError
  {
  }

  lemma OthersAreRefused(config: MockConfig, w: Server, request: TokenRequest, drawn: Fresh)
    requires var auth := Authenticate(config.clients, request.authorization, Parse(request.body));
             auth.Err? || !Admitted(config, request, auth.value)
    ensures DoesStep(config, w, Token(config, w, request, drawn), None)
  {
    var auth := Authenticate(config.clients, request.authorization, Parse(request.body));
    if auth.Err? {
      AuthenticationErrors(config.clients, request.authorization, Parse(request.body));
    }
  }

  /** A request that is admitted is the store step it asks for, on behalf of the client that
      authenticated; any other is refused and changes nothing. */
  lemma TokenIsOneStep(config: MockConfig, w: Server, request: TokenRequest, drawn: Fresh)
    ensures forall a | Admitted(config, request, a) ::
              DoesStep(config, w, Token(config, w, request, drawn), StepAskedBy(a, Parse(request.body), drawn))
    ensures (forall a :: !Admitted(config, request, a)) ==>
              DoesStep(config, w, Token(config, w, request, drawn), None)
  {
    var auth := Authenticate(config.clients, request.authorization, Parse(request.body));
    if auth.Ok? && Admitted(config, request, auth.value) {
      DispatchIsOneStep(config, w, auth.value, Parse(request.body), drawn);
    } else {
      OthersAreRefused(config, w, request, drawn);
    }
  }

  /** The owner of a redeemed code presents it again. */
  predicate IsReplay(w: Server, op: Op) {
    && op.RedeemOp?
    && op.request.code in w.store.codes
    && w.store.codes[op.request.code].clientId == op.request.clientId
    && w.store.codes[op.request.code].redeemed
  }

  lemma RefusedStepConsumesNothing(w: Server, op: Op)
    requires Step(w, op).1.Refused?
    ensures Step(w, op).0 == if IsReplay(w, op)
                             then w.(store := w.store.(revokedFamilies :=
                                    w.store.revokedFamilies + {w.store.codes[op.request.code].family}))
                             else w
  {
  }

  ghost predicate Replays(config: MockConfig, w: Server, request: TokenRequest, drawn: Fresh, op: Op) {
    exists a :: && Admitted(config, request, a)
                && StepAskedBy(a, Parse(request.body), drawn) == Some(op) && IsReplay(w, op)
  }

  /** Failures consume nothing: an answer other than 200 leaves the whole server as it was, except
      for the replay of a redeemed code by its owner, which revokes that one family. */
  lemma FailuresConsumeNothing(config: MockConfig, w: Server, request: TokenRequest, drawn: Fresh)
    requires Token(config, w, request, drawn).1.Err?
    ensures forall op | Replays(config, w, request, drawn, op) ::
              Token(config, w, request, drawn).0 == w.(store := w.store.(revokedFamilies :=
                w.store.revokedFamilies + {w.store.codes[op.request.code].family}))
    ensures (forall op :: !Replays(config, w, request, drawn, op)) ==> Token(config, w, request, drawn).0 == w
  {
    TokenIsOneStep(config, w, request, drawn);
    var params := Parse(request.body);
    var auth := Authenticate(config.clients, request.authorization, params);
    if auth.Ok? && Admitted(config, request, auth.value) && StepAskedBy(auth.value, params, drawn).Some? {
      var op := StepAskedBy(auth.value, params, drawn).value;
      RefusedStepConsumesNothing(w, op);
      assert IsReplay(w, op) ==> Replays(config, w, request, drawn, op);
    }
  }

  /** Before authentication a caller learns nothing: the answer depends on neither the store nor the
      time. */
  lemma UnauthenticatedLearnsNothing(config: MockConfig, w: Server, other: Server, request: TokenRequest, drawn: Fresh)
    requires Authenticate(config.clients, request.authorization, Parse(request.body)).Err?
    ensures Token(config, w, request, drawn).1 == Token(config, other, request, drawn).1
    ensures Token(config, w, request, drawn).1.Err?
  {
  }

  /** A request that gets as far as authentication and fails it. */
  lemma FailedAuthenticationIsTheAnswer(config: MockConfig, w: Server, request: TokenRequest, drawn: Fresh)
    requires request.httpMethod == "POST" && IsFormContent(request.contentType) && |request.body| <= MAX_BODY_BYTES
    requires !Repeats(Parse(request.body))
    requires Authenticate(config.clients, request.authorization, Parse(request.body)).Err?
    ensures Token(config, w, request, drawn)
         == (w, Err(Authenticate(config.clients, request.authorization, Parse(request.body)).error))
  {
  }

  lemma DispatchAppToken(config: MockConfig, w: Server, a: Authenticated, params: Params, drawn: Fresh)
    ensures var r := Dispatch(config, w, a, params, drawn).1;
            r.Ok? && r.value.refreshToken.None? ==>
              a.via.Basic? && Value(params, GRANT_TYPE) == Some(CLIENT_CREDENTIALS)
  {
  }

  /** An app token is given only to a client that used the Basic scheme. */
  lemma AppTokenNeedsBasic(config: MockConfig, w: Server, request: TokenRequest, drawn: Fresh)
    requires Token(config, w, request, drawn).1.Ok? && Token(config, w, request, drawn).1.value.refreshToken.None?
    ensures Value(Parse(request.body), GRANT_TYPE) == Some(CLIENT_CREDENTIALS)
    ensures BasicCredentials(request.authorization).Some?
  {
    var params := Parse(request.body);
    var a := Authenticate(config.clients, request.authorization, params).value;
    DispatchAppToken(config, w, a, params, drawn);
    AuthenticateExact(config.clients, request.authorization, params, a);
  }
}
