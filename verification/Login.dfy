/** The whole login: client, authorization endpoint, user agent, listener and token endpoint. */
module Login {
  import opened Wrappers
  import opened Bytes
  import opened Time
  import opened Config
  import opened Errors
  import opened Form
  import opened Names
  import opened StoreModel
  import opened ClientAuth
  import opened ClientRequests
  import opened TokenEndpoint
  import opened Redirected
  import Authorize
  import Callback
  import Pkce
  import Runs
  import StoreInvariant

  // ---- asking for a code ----

  /** What a user agent asks for: the fragment of a URL is not sent. */
  function Fetch(url: Text): Authorize.AuthorizeRequest {
    var sent := match SplitOnce(url, '#') case Some((before, _)) => before case None => url;
    Authorize.AuthorizeRequest(Callback.GET, match SplitOnce(sent, '?')
                                             case Some((_, query)) => Some(query)
                                             case None => None)
  }

  /** The authorize URL of a client, fetched. */
  function AuthorizeRequestOf(endpoint: Text, pairs: Params): Authorize.AuthorizeRequest {
    Fetch(UrlWith(endpoint, pairs))
  }

  lemma AsksAndTrusted(config: MockConfig, client: RegisteredClient, base: Text, challenge: Text, state: Text,
                       params: Params)
    requires params == AuthorizeParams(client.clientId, base, challenge, state)
    requires FindClient(config.clients, client.clientId) == Some(client) && base in client.redirectUris
    requires client.clientId != [] && base != [] && Pkce.IsValidChallenge(challenge)
    ensures Authorize.Trusted(config, params, client, base) && Authorize.AsksForCode(params, challenge)
    ensures First(params, STATE) == Some(state)
  {
    AuthorizeNames(client.clientId, base, challenge, state);
    OccurrencesOnce(params, 0);
    OccurrencesOnce(params, 1);
    OccurrencesOnce(params, 2);
    OccurrencesOnce(params, 3);
    OccurrencesOnce(params, 4);
    OccurrencesOnce(params, 5);
    assert |challenge| == 43 && |CODE| == 4 && |S256| == 4;
  }

  lemma ClientIsFound(config: MockConfig, client: RegisteredClient)
    requires ValidConfig(config) && client in config.clients
    ensures FindClient(config.clients, client.clientId) == Some(client)
  {
    assert forall i | 0 <= i < |config.clients| :: GoodClient(config.clients, i) ==> FirstOfItsId(config.clients, i);
    IdNamesClient(config.clients, client);
  }

  /** Any state and any challenge that S256 could give: the user's approval issues the code. */
  lemma AuthorizeIssues(config: MockConfig, w: Server, client: RegisteredClient, endpoint: Text, base: Text,
                        challenge: Text, state: Text, drawn: Credential)
    requires IsEndpoint(endpoint)
    requires ValidConfig(config) && client in config.clients && base in client.redirectUris
    requires client.clientId != [] && base != [] && Pkce.IsValidChallenge(challenge)
    ensures var (w', r) := Authorize.Authorize(config, Approve, w,
              AuthorizeRequestOf(endpoint, AuthorizeParams(client.clientId, base, challenge, state)), drawn);
            && w' == Step(w, IssueCodeOp(client.clientId, base, challenge, drawn)).0
            && r == Ok(Authorize.Location(base, (CODE, drawn.text), Some(state)))
  {
    var params := AuthorizeParams(client.clientId, base, challenge, state);
    var request := AuthorizeRequestOf(endpoint, params);
    ClientIsFound(config, client);
    AsksAndTrusted(config, client, base, challenge, state, params);
    ParsedRequest(endpoint, params);
    Authorize.TrustedBaseIsGood(config, params, client, base);
    Authorize.LocationIsHeaderSafe(base, (CODE, drawn.text), Some(state));
    Authorize.ApprovedIssues(config, w, request, client, base, challenge, drawn);
  }

  lemma ParsedRequest(endpoint: Text, params: Params)
    requires IsEndpoint(endpoint)
    ensures Authorize.RequestParams(AuthorizeRequestOf(endpoint, params)) == params
    ensures Authorize.Allowed(AuthorizeRequestOf(endpoint, params))
  {
    UrlCarriesQuery(endpoint, params);
  }

  // ---- trading the code ----

  function TokenRequestOf(pairs: Params): TokenRequest {
    TokenRequest("POST", Some(FORM_MEDIA_TYPE), [], Serialize(pairs))
  }

  lemma FormMediaTypeIsForm()
    ensures IsFormContent(Some(FORM_MEDIA_TYPE))
  {
    assert forall i | 0 <= i < |FORM_MEDIA_TYPE| :: FORM_MEDIA_TYPE[i] != ';' && 32 < FORM_MEDIA_TYPE[i] as int < 127;
    assert FORM_MEDIA_TYPE == [] + FORM_MEDIA_TYPE + [];
    TrimExact([], FORM_MEDIA_TYPE, []);
  }

  lemma SentOnceNeverRepeats(params: Params)
    requires SentOnce(params)
    ensures !Repeats(params)
  {
    forall k | 0 <= k < |KNOWN_PARAMETERS| ensures Unique(params, KNOWN_PARAMETERS[k]).Ok? {
      AtMostOnce(params, KNOWN_PARAMETERS[k]);
    }
  }

  predicate CarriesClient(params: Params, client: RegisteredClient) {
    && Value(params, CLIENT_ID) == Some(client.clientId)
    && Value(params, CLIENT_SECRET) == Some(client.clientSecret)
  }

  /** A form that carries the credentials of a registered client is admitted. */
  lemma FormIsAdmitted(config: MockConfig, client: RegisteredClient, params: Params)
    requires SentOnce(params) && |Serialize(params)| <= MAX_BODY_BYTES
    requires FindClient(config.clients, client.clientId) == Some(client)
    requires CarriesClient(params, client)
    ensures Admitted(config, TokenRequestOf(params), Authenticated(client, Body))
    ensures Parse(TokenRequestOf(params).body) == params
  {
    FormMediaTypeIsForm();
    ParseSerialized(params);
    SentOnceNeverRepeats(params);
    AuthenticateExact(config.clients, [], params, Authenticated(client, Body));
  }

  lemma ExchangeValues(client: RegisteredClient, code: Text, verifier: Text, base: Text, params: Params)
    requires params == ExchangeForm(client.clientId, client.clientSecret, code, verifier, base)
    requires client.clientId != [] && client.clientSecret != [] && code != [] && verifier != [] && base != []
    ensures SentOnce(params) && Value(params, GRANT_TYPE) == Some(AUTHORIZATION_CODE)
    ensures CarriesClient(params, client)
    ensures Value(params, REDIRECT_URI) == Some(base) && Value(params, CODE_VERIFIER) == Some(verifier)
    ensures Value(params, CODE) == Some(code)
  {
    ExchangeNames(client.clientId, client.clientSecret, code, verifier, base);
    OccurrencesOnce(params, 0);
    OccurrencesOnce(params, 1);
    OccurrencesOnce(params, 2);
    OccurrencesOnce(params, 3);
    OccurrencesOnce(params, 4);
    OccurrencesOnce(params, 5);
    assert |AUTHORIZATION_CODE| == 18;
  }

  lemma FormRedeems(config: MockConfig, w: Server, client: RegisteredClient, params: Params, redemption: CodeRedemption,
                    drawn: Fresh)
    requires SentOnce(params) && |Serialize(params)| <= MAX_BODY_BYTES
    requires FindClient(config.clients, client.clientId) == Some(client)
    requires CarriesClient(params, client)
    requires Value(params, GRANT_TYPE) == Some(AUTHORIZATION_CODE) && redemption.clientId == client.clientId
    requires Value(params, REDIRECT_URI) == Some(redemption.redirectUri)
    requires Value(params, CODE_VERIFIER) == Some(redemption.codeVerifier)
    requires Value(params, CODE) == Some(redemption.code.text)
    ensures var op := RedeemOp(redemption, drawn.access, drawn.refresh);
            var (w', r) := Token(config, w, TokenRequestOf(params), drawn);
            w' == Step(w, op).0 && Reports(r, Step(w, op).1, config.accessTokenLifetime)
  {
    FormIsAdmitted(config, client, params);
    TokenIsOneStep(config, w, TokenRequestOf(params), drawn);
    assert StepAskedBy(Authenticated(client, Body), params, drawn)
        == Some(RedeemOp(redemption, drawn.access, drawn.refresh));
  }

  /** The exchange form is exactly one `redeem_code` step on behalf of its client. */
  lemma ExchangeRedeems(config: MockConfig, w: Server, client: RegisteredClient, code: Text, verifier: Text, base: Text,
                        drawn: Fresh)
    requires FindClient(config.clients, client.clientId) == Some(client)
    requires client.clientId != [] && client.clientSecret != [] && code != [] && verifier != [] && base != []
    requires |Serialize(ExchangeForm(client.clientId, client.clientSecret, code, verifier, base))| <= MAX_BODY_BYTES
    ensures var request := TokenRequestOf(ExchangeForm(client.clientId, client.clientSecret, code, verifier, base));
            var redemption := CodeRedemption(client.clientId, Credential(code), base, verifier);
            var op := RedeemOp(redemption, drawn.access, drawn.refresh);
            var (w', r) := Token(config, w, request, drawn);
            w' == Step(w, op).0 && Reports(r, Step(w, op).1, config.accessTokenLifetime)
  {
    var params := ExchangeForm(client.clientId, client.clientSecret, code, verifier, base);
    ExchangeValues(client, code, verifier, base, params);
    FormRedeems(config, w, client, params, CodeRedemption(client.clientId, Credential(code), base, verifier), drawn);
  }

  lemma RefreshValues(client: RegisteredClient, token: Text, params: Params)
    requires params == RefreshForm(client.clientId, client.clientSecret, token)
    requires client.clientId != [] && client.clientSecret != [] && token != []
    ensures SentOnce(params) && Value(params, GRANT_TYPE) == Some(REFRESH_TOKEN)
    ensures CarriesClient(params, client)
    ensures Value(params, REFRESH_TOKEN) == Some(token)
  {
    RefreshNames(client.clientId, client.clientSecret, token);
    OccurrencesOnce(params, 0);
    OccurrencesOnce(params, 1);
    OccurrencesOnce(params, 2);
    OccurrencesOnce(params, 3);
    assert |REFRESH_TOKEN| == 13;
  }

  lemma FormRefreshes(config: MockConfig, w: Server, client: RegisteredClient, params: Params, token: Text,
                      drawn: Fresh)
    requires SentOnce(params) && |Serialize(params)| <= MAX_BODY_BYTES
    requires FindClient(config.clients, client.clientId) == Some(client)
    requires CarriesClient(params, client)
    requires Value(params, GRANT_TYPE) == Some(REFRESH_TOKEN) && Value(params, REFRESH_TOKEN) == Some(token)
    ensures var op := RefreshOp(client.clientId, Credential(token), drawn.access, drawn.refresh);
            var (w', r) := Token(config, w, TokenRequestOf(params), drawn);
            w' == Step(w, op).0 && Reports(r, Step(w, op).1, config.accessTokenLifetime)
  {
    GrantsAreDistinct();
    FormIsAdmitted(config, client, params);
    TokenIsOneStep(config, w, TokenRequestOf(params), drawn);
    assert StepAskedBy(Authenticated(client, Body), params, drawn)
        == Some(RefreshOp(client.clientId, Credential(token), drawn.access, drawn.refresh));
  }

  /** And the refresh form is exactly one `refresh` step. */
  lemma RefreshFormRefreshes(config: MockConfig, w: Server, client: RegisteredClient, token: Text, drawn: Fresh)
    requires FindClient(config.clients, client.clientId) == Some(client)
    requires client.clientId != [] && client.clientSecret != [] && token != []
    requires |Serialize(RefreshForm(client.clientId, client.clientSecret, token))| <= MAX_BODY_BYTES
    ensures var request := TokenRequestOf(RefreshForm(client.clientId, client.clientSecret, token));
            var op := RefreshOp(client.clientId, Credential(token), drawn.access, drawn.refresh);
            var (w', r) := Token(config, w, request, drawn);
            w' == Step(w, op).0 && Reports(r, Step(w, op).1, config.accessTokenLifetime)
  {
    var params := RefreshForm(client.clientId, client.clientSecret, token);
    RefreshValues(client, token, params);
    FormRefreshes(config, w, client, params, token, drawn);
  }

  // ---- forms that cannot be traded ----

  lemma NoSecretIsRefused(config: MockConfig, w: Server, params: Params, drawn: Fresh)
    requires SentOnce(params) && |Serialize(params)| <= MAX_BODY_BYTES && Value(params, CLIENT_SECRET) == None
    ensures Token(config, w, TokenRequestOf(params), drawn) == (w, Err(InvalidClientCredentials))
  {
    FormMediaTypeIsForm();
    ParseSerialized(params);
    SentOnceNeverRepeats(params);
    NoSecretFails(config, w, TokenRequestOf(params), params, drawn);
  }

  lemma NoSecretFails(config: MockConfig, w: Server, request: TokenRequest, params: Params, drawn: Fresh)
    requires request.httpMethod == "POST" && IsFormContent(request.contentType)
    requires request.authorization == [] && |request.body| <= MAX_BODY_BYTES
    requires params == Parse(request.body) && !Repeats(params) && Value(params, CLIENT_SECRET) == None
    ensures Token(config, w, request, drawn) == (w, Err(InvalidClientCredentials))
  {
    NoSecretIsNobody(config.clients, params);
    FailedAuthenticationIsTheAnswer(config, w, request, drawn);
  }

  lemma NoSecretIsNobody(clients: seq<RegisteredClient>, params: Params)
    requires Value(params, CLIENT_SECRET) == None
    ensures Authenticate(clients, [], params) == Err(InvalidClientCredentials)
  {
  }

  lemma LongFormIsRefused(config: MockConfig, w: Server, params: Params, drawn: Fresh)
    ensures |Serialize(params)| > MAX_BODY_BYTES ==>
              Token(config, w, TokenRequestOf(params), drawn) == (w, Err(PayloadTooLarge))
  {
    FormMediaTypeIsForm();
  }

  lemma EmptySecretCountsAsMissing(clientId: Text, code: Text, verifier: Text, base: Text, params: Params)
    requires params == ExchangeForm(clientId, [], code, verifier, base)
    ensures SentOnce(params) && Value(params, CLIENT_SECRET) == None
  {
    ExchangeNames(clientId, [], code, verifier, base);
    OccurrencesOnce(params, 2);
  }

  /** A client registered with an empty secret can never trade a code, whatever else it sends. */
  lemma EmptySecretNeverLogsIn(config: MockConfig, w: Server, clientId: Text, code: Text, verifier: Text, base: Text,
                               drawn: Fresh)
    ensures var params := ExchangeForm(clientId, [], code, verifier, base);
            var error := if |Serialize(params)| > MAX_BODY_BYTES then PayloadTooLarge else InvalidClientCredentials;
            Token(config, w, TokenRequestOf(params), drawn) == (w, Err(error))
  {
    var params := ExchangeForm(clientId, [], code, verifier, base);
    EmptySecretCountsAsMissing(clientId, code, verifier, base, params);
    if |Serialize(params)| > MAX_BODY_BYTES {
      LongFormIsRefused(config, w, params, drawn);
    } else {
      NoSecretIsRefused(config, w, params, drawn);
    }
  }

  /** And one registered with an empty id can never ask for a code: an empty parameter is missing. */
  lemma EmptyIdNeverLogsIn(config: MockConfig, w: Server, endpoint: Text, base: Text, challenge: Text, state: Text,
                           drawn: Credential)
    requires IsEndpoint(endpoint)
    ensures var request := AuthorizeRequestOf(endpoint, AuthorizeParams([], base, challenge, state));
            Authorize.Authorize(config, Approve, w, request, drawn) == (w, Err(InvalidClient))
  {
    var params := AuthorizeParams([], base, challenge, state);
    AuthorizeNames([], base, challenge, state);
    OccurrencesOnce(params, 0);
    ParsedRequest(endpoint, params);
  }

  // ---- the whole way ----

  /** What a login draws and what the user set up. */
  datatype Attempt = Attempt(
    client: RegisteredClient,
    endpoint: Text,
    base: Text,
    verifierBytes: Pkce.Digest,
    state: Text,
    codeBytes: Pkce.Digest)

  function PkceOf(a: Attempt): Pkce.Pkce {
    Pkce.Generate(a.verifierBytes)
  }

  function CodeOf(a: Attempt): Credential {
    Credential(Pkce.RandomToken(a.codeBytes))
  }

  /** A registered client, the server's address, and a URI of the client that a user agent sends as
      written. */
  predicate SetUp(config: MockConfig, a: Attempt) {
    && ValidConfig(config) && a.client in config.clients && a.base in a.client.redirectUris
    && IsEndpoint(a.endpoint) && SentAsWritten(a.base) && NoOwnParams(a.base)
  }

  /** The client opens the authorize URL, and the user approves. */
  function Asked(config: MockConfig, w: Server, a: Attempt): (Server, Result<Text, ApiError>) {
    Authorize.Authorize(config, Approve, w,
      Fetch(UrlWith(a.endpoint, AuthorizeParams(a.client.clientId, a.base, PkceOf(a).challenge, a.state))), CodeOf(a))
  }

  /** The user agent follows the redirect: the line it sends to the listener. */
  function ReturnLine(a: Attempt): Text {
    LineOf(Authorize.Location(a.base, (CODE, CodeOf(a).text), Some(a.state)))
  }

  /** The client trades the code that came back. */
  function FormOf(a: Attempt, code: Text): Params {
    ExchangeForm(a.client.clientId, a.client.clientSecret, code, PkceOf(a).verifier, a.base)
  }

  datatype End =
    | NotRedirected(error: ApiError)
    | NotReturned(reason: Callback.CallbackError)
    | Answered(server: Server, tokens: Result<TokenResponse, ApiError>)

  /** The trade of the code that the listener got, if it got one. */
  function Traded(config: MockConfig, w: Server, a: Attempt, heard: Result<Text, Callback.CallbackError>,
                  drawn: Fresh): End {
    match heard
    case Err(reason) => NotReturned(reason)
    case Ok(code) =>
      var (w', tokens) := Token(config, w, TokenRequestOf(FormOf(a, code)), drawn);
      Answered(w', tokens)
  }

  /** A whole login, with other requests between the redirect and the trade. */
  function LoginOf(config: MockConfig, w: Server, a: Attempt, ops: seq<Op>, drawn: Fresh): End {
    var (w1, redirect) := Asked(config, w, a);
    match redirect
    case Err(error) => NotRedirected(error)
    case Ok(location) => Traded(config, After(w1, ops), a, Callback.Heard(LineOf(location), a.state), drawn)
  }

  predicate Succeeds(end: End) {
    end.Answered? && end.tokens.Ok?
  }

  /** The server once the code is issued. */
  function Issued(w: Server, a: Attempt): Server {
    Step(w, IssueCodeOp(a.client.clientId, a.base, PkceOf(a).challenge, CodeOf(a))).0
  }

  /** What the listener makes of the redirect. */
  function Returned(a: Attempt): Result<Text, Callback.CallbackError> {
    if |ReturnLine(a)| > LONGEST_LINE then Err(Callback.Malformed)
    else if PathOf(a.base) != Callback.CALLBACK_PATH then Err(Callback.NotCallback)
    else if Authorize.EndsInsideQuery(a.base) then Err(Callback.MissingCode)
    else Ok(CodeOf(a).text)
  }

  /** From the generated verifier to the code in the client's hands: the redirect is sent, for every
      state and all random bytes, and carries the code exactly when the listener can read the line,
      its path is `/callback`, and the registered URI does not end in a `?` of its own query. */
  lemma CodeComesHome(config: MockConfig, w: Server, a: Attempt)
    requires SetUp(config, a) && a.client.clientId != []
    ensures var (w1, r) := Asked(config, w, a);
            && w1 == Issued(w, a)
            && r.Ok?
            && Callback.Heard(LineOf(r.value), a.state) == Returned(a)
  {
    Pkce.GeneratedPairIsAccepted(a.verifierBytes);
    Pkce.RandomTokenShape(a.codeBytes);
    assert a.base != [];
    AuthorizeIssues(config, w, a.client, a.endpoint, a.base, PkceOf(a).challenge, a.state, CodeOf(a));
    CallbackBringsCode(a.base, CodeOf(a).text, a.state);
  }

  // ---- in between ----

  /** The client's presentation of its code. */
  function Redemption(a: Attempt): CodeRedemption {
    CodeRedemption(a.client.clientId, CodeOf(a), a.base, PkceOf(a).verifier)
  }

  predicate InTime(w: Server, a: Attempt, ops: seq<Op>) {
    After(Issued(w, a), ops).now < SaturatingAdd(w.now, w.store.authorizationCodeLifetime)
  }

  /** Nobody was first: no request in between could redeem the code. Presentations by another
      client, with another URI or a wrong verifier do not count. */
  ghost predicate Undisturbed(w: Server, a: Attempt, ops: seq<Op>) {
    !Runs.Won(Issued(w, a), ops, CodeOf(a))
  }

  /** After any other requests the client's own presentation of a generated code is granted exactly
      in time and undisturbed. */
  lemma CodeStaysRedeemable(w: Server, a: Attempt, ops: seq<Op>, drawn: Fresh)
    requires StoreInvariant.Valid(w.store) && CodeOf(a) !in Credentials(w.store)
    requires ValidRun(Issued(w, a), ops)
    ensures var w2 := After(Issued(w, a), ops);
            var (w3, answer) := Step(w2, RedeemOp(Redemption(a), drawn.access, drawn.refresh));
            && (answer.Grant? <==> InTime(w, a, ops) && Undisturbed(w, a, ops))
            && (answer.Grant? ==>
                  && answer == Grant(StoreModel.Issued(drawn.access, Some(drawn.refresh)))
                  && ReportsFull(w3, drawn.access, a.client.clientId, w.store.accessTokenLifetime))
  {
    var w1, c := Issued(w, a), CodeOf(a);
    StoreInvariant.IssueCodeValid(w.store, a.client.clientId, a.base, PkceOf(a).challenge, w.now, c);
    StoreInvariant.RunValid(w1, ops);
    Runs.RedeemedExactly(w1, ops, c);
    Runs.RunPersists(w1, ops);
    Pkce.GeneratedPairIsAccepted(a.verifierBytes);
    RedeemAnswer(After(w1, ops), Redemption(a), drawn);
  }

  /** The token counts its full lifetime from now, unless the clock ends before. */
  predicate ReportsFull(w: Server, token: Credential, clientId: Text, lifetime: Duration) {
    && token in w.store.accessTokens
    && w.store.accessTokens[token].expiresAt == SaturatingAdd(w.now, lifetime)
    && (0 < lifetime && w.now + lifetime <= MAX_NANOS ==>
          AccessTokenInfo(w.store, token, w.now) == Some(TokenInfo(User, clientId, lifetime)))
  }

  lemma RedeemAnswer(w: Server, request: CodeRedemption, drawn: Fresh)
    requires StoreInvariant.Valid(w.store) && request.code in w.store.codes
    ensures var (w', answer) := Step(w, RedeemOp(request, drawn.access, drawn.refresh));
            var code := w.store.codes[request.code];
            && (answer.Grant? <==>
                  !code.redeemed && RedeemableBy(w.store.authorizationCodeLifetime, code, request, w.now))
            && (answer.Grant? ==>
                  && answer == Grant(StoreModel.Issued(drawn.access, Some(drawn.refresh)))
                  && ReportsFull(w', drawn.access, request.clientId, w.store.accessTokenLifetime))
  {
    if !w.store.codes[request.code].redeemed {
      StoreInvariant.UnredeemedHasNone(w.store, request.code);
    }
  }

  // ---- when a login succeeds ----

  /** What can be checked of a client, its URI and its secret before a login. */
  predicate CanLogIn(a: Attempt) {
    && a.client.clientId != []
    && a.client.clientSecret != []
    && PathOf(a.base) == Callback.CALLBACK_PATH
    && !Authorize.EndsInsideQuery(a.base)
    && |ReturnLine(a)| <= LONGEST_LINE
    && |Serialize(FormOf(a, CodeOf(a).text))| <= MAX_BODY_BYTES
  }

  /** The trade of a code that came home. */
  lemma TradeExactly(config: MockConfig, w: Server, a: Attempt, ops: seq<Op>, drawn: Fresh)
    requires SetUp(config, a) && a.client.clientId != []
    requires StoreInvariant.Valid(w.store) && CodeOf(a) !in Credentials(w.store)
    requires w.store.accessTokenLifetime == config.accessTokenLifetime && ValidRun(Issued(w, a), ops)
    ensures var params := FormOf(a, CodeOf(a).text);
            var (w3, tokens) := Token(config, After(Issued(w, a), ops), TokenRequestOf(params), drawn);
            && (tokens.Ok? <==>
                  && a.client.clientSecret != [] && |Serialize(params)| <= MAX_BODY_BYTES
                  && InTime(w, a, ops) && Undisturbed(w, a, ops))
            && (tokens.Ok? ==> GivesTokens(config, a, w3, tokens, drawn))
  {
    var w2, params := After(Issued(w, a), ops), FormOf(a, CodeOf(a).text);
    if |Serialize(params)| > MAX_BODY_BYTES {
      LongFormIsRefused(config, w2, params, drawn);
    } else if a.client.clientSecret == [] {
      EmptySecretCountsAsMissing(a.client.clientId, CodeOf(a).text, PkceOf(a).verifier, a.base, params);
      NoSecretIsRefused(config, w2, params, drawn);
    } else {
      Pkce.RandomTokenShape(a.codeBytes);
      Pkce.RandomTokenShape(a.verifierBytes);
      ClientIsFound(config, a.client);
      ExchangeRedeems(config, w2, a.client, CodeOf(a).text, PkceOf(a).verifier, a.base, drawn);
      CodeStaysRedeemable(w, a, ops, drawn);
    }
  }

  /** The tokens of a successful login, and what the server says of them. */
  predicate GivesTokens(config: MockConfig, a: Attempt, w: Server, tokens: Result<TokenResponse, ApiError>,
                        drawn: Fresh) {
    var lifetime := config.accessTokenLifetime;
    && tokens == Ok(TokenResponse(drawn.access, Some(drawn.refresh), AsSecs(lifetime)))
    && AsSecs(lifetime) * NANOS_PER_SEC == lifetime
    && ReportsFull(w, drawn.access, a.client.clientId, lifetime)
  }

  lemma LoginWithoutId(config: MockConfig, w: Server, a: Attempt, ops: seq<Op>, drawn: Fresh)
    requires IsEndpoint(a.endpoint) && a.client.clientId == []
    ensures LoginOf(config, w, a, ops, drawn) == NotRedirected(InvalidClient)
  {
    EmptyIdNeverLogsIn(config, w, a.endpoint, a.base, PkceOf(a).challenge, a.state, CodeOf(a));
  }

  /** What a login ends in once the redirect is on its way. */
  lemma LoginRedirected(config: MockConfig, w: Server, a: Attempt, ops: seq<Op>, drawn: Fresh)
    requires SetUp(config, a) && a.client.clientId != []
    ensures Asked(config, w, a).0 == Issued(w, a)
    ensures LoginOf(config, w, a, ops, drawn) == Traded(config, After(Issued(w, a), ops), a, Returned(a), drawn)
  {
    CodeComesHome(config, w, a);
  }

  /** The conditions of a login, by where they are met. */
  lemma CanLogInParts(a: Attempt)
    requires a.client.clientId != []
    ensures Returned(a).Ok? ==> Returned(a).value == CodeOf(a).text
    ensures CanLogIn(a) <==>
            && Returned(a).Ok? && a.client.clientSecret != []
            && |Serialize(FormOf(a, CodeOf(a).text))| <= MAX_BODY_BYTES
  {
  }

  /** A login with an id, from the redirect on. */
  lemma TradedExactly(config: MockConfig, w: Server, a: Attempt, ops: seq<Op>, drawn: Fresh, w2: Server, end: End)
    requires SetUp(config, a) && a.client.clientId != []
    requires StoreInvariant.Valid(w.store) && CodeOf(a) !in Credentials(w.store)
    requires w.store.accessTokenLifetime == config.accessTokenLifetime && ValidRun(Issued(w, a), ops)
    requires w2 == After(Issued(w, a), ops) && end == Traded(config, w2, a, Returned(a), drawn)
    ensures Succeeds(end) <==> CanLogIn(a) && InTime(w, a, ops) && Undisturbed(w, a, ops)
    ensures Succeeds(end) ==> GivesTokens(config, a, end.server, end.tokens, drawn)
  {
    CanLogInParts(a);
    if Returned(a).Ok? {
      TradeExactly(config, w, a, ops, drawn);
      var params := FormOf(a, CodeOf(a).text);
      var (w3, tokens) := Token(config, w2, TokenRequestOf(params), drawn);
      assert end == Answered(w3, tokens);
    }
  }

  /** The login, from the client's random bytes to its tokens: for every state, every valid
      configuration with a URI that is sent as written and has no parameters of the redirect, and
      any other requests in between, it succeeds if and only if the client and its URI can log in at all, and the trade
      comes in time and before anyone else's. Then the tokens have their full lifetime. */
  lemma LoginExactly(config: MockConfig, w: Server, a: Attempt, ops: seq<Op>, drawn: Fresh)
    requires SetUp(config, a)
    requires StoreInvariant.Valid(w.store) && CodeOf(a) !in Credentials(w.store)
    requires w.store.accessTokenLifetime == config.accessTokenLifetime
    requires ValidRun(Asked(config, w, a).0, ops)
    ensures var end := LoginOf(config, w, a, ops, drawn);
            && (Succeeds(end) <==> CanLogIn(a) && InTime(w, a, ops) && Undisturbed(w, a, ops))
            && (Succeeds(end) ==> GivesTokens(config, a, end.server, end.tokens, drawn))
  {
    if a.client.clientId == [] {
      LoginWithoutId(config, w, a, ops, drawn);
    } else {
      LoginRedirected(config, w, a, ops, drawn);
      TradedExactly(config, w, a, ops, drawn, After(Issued(w, a), ops), LoginOf(config, w, a, ops, drawn));
    }
  }
}
