/** `/authorize`: which requests a user is asked about, what they change, and where the answer is
    redirected to. */
module Authorize {
  import opened Wrappers
  import opened Bytes
  import opened Config
  import opened Errors
  import opened Form
  import opened StoreModel
  import opened Names
  import Pkce

  /** The query is absent or what follows the `?`. */
  datatype AuthorizeRequest = AuthorizeRequest(httpMethod: Text, query: Option<Text>)

  predicate Allowed(request: AuthorizeRequest) {
    request.httpMethod == "GET" || request.httpMethod == "HEAD"
  }

  function RequestParams(request: AuthorizeRequest): Params {
    Parse(if request.query.Some? then request.query.value else [])
  }

  function KnownClient(config: MockConfig, params: Params): Result<RegisteredClient, ApiError> {
    match Unique(params, CLIENT_ID)
    case Err(_) => Err(InvalidRequest)
    case Ok(None) => Err(InvalidClient)
    case Ok(Some(clientId)) =>
      match FindClient(config.clients, clientId)
      case Some(client) => Ok(client)
      case None => Err(InvalidClient)
  }

  function RegisteredRedirectUri(client: RegisteredClient, params: Params): Result<Text, ApiError> {
    match Unique(params, REDIRECT_URI)
    case Ok(Some(requested)) => if requested in client.redirectUris then Ok(requested) else Err(InvalidRequest)
    case _ => Err(InvalidRequest)
  }

  /** The challenge, or the `error` to report by redirect. */
  function Validate(params: Params): Result<Text, Text> {
    match Unique(params, RESPONSE_TYPE)
    case Err(_) => Err(INVALID_REQUEST)
    case Ok(None) => Err(INVALID_REQUEST)
    case Ok(Some(responseType)) =>
      if responseType != CODE then Err(UNSUPPORTED_RESPONSE_TYPE)
      else match Unique(params, CODE_CHALLENGE)
        case Ok(Some(challenge)) =>
          if !Pkce.IsValidChallenge(challenge) then Err(INVALID_REQUEST)
          else if Unique(params, CODE_CHALLENGE_METHOD) != Ok(Some(S256)) then Err(INVALID_REQUEST)
          else if Unique(params, STATE).Err? then Err(INVALID_REQUEST)
          else Ok(challenge)
        case _ => Err(INVALID_REQUEST)
  }

  // ---- the redirect ----

  function Separator(base: Text): Text {
    if '?' !in base then "?"
    else if base[|base| - 1] == '?' || base[|base| - 1] == '&' then ""
    else "&"
  }

  function Added(pair: Pair, state: Option<Text>): Params {
    [pair] + (if state.Some? then [(STATE, state.value)] else [])
  }

  function Location(base: Text, pair: Pair, state: Option<Text>): Text {
    base + Separator(base) + Serialize(Added(pair, state))
  }

  /** The bytes `HeaderValue::try_from` accepts. */
  predicate HeaderSafe(value: Text) {
    forall b | b in value :: (b as int >= 32 && b as int != 127) || b == '\t'
  }

  function RedirectTo(base: Text, pair: Pair, state: Option<Text>): Result<Text, ApiError> {
    var location := Location(base, pair, state);
    if HeaderSafe(location) then Ok(location) else Err(Internal)
  }

  /** One `/authorize` request; `drawn` is what the random source would give as a code. */
  function Authorize(config: MockConfig, decision: UserDecision, w: Server, request: AuthorizeRequest,
                     drawn: Credential)
    : (Server, Result<Text, ApiError>)
  {
    if !Allowed(request) then (w, Err(MethodNotAllowed))
    else
      var params := RequestParams(request);
      match KnownClient(config, params)
      case Err(error) => (w, Err(error))
      case Ok(client) =>
        match RegisteredRedirectUri(client, params)
        case Err(error) => (w, Err(error))
        case Ok(base) =>
          var state := First(params, STATE);
          match Validate(params)
          case Err(error) => (w, RedirectTo(base, (ERROR, error), state))
          case Ok(challenge) =>
            if decision.Deny? then (w, RedirectTo(base, (ERROR, ACCESS_DENIED), state))
            else
              (w.(store := IssueCode(w.store, client.clientId, base, challenge, w.now, drawn)),
               RedirectTo(base, (CODE, drawn.text), state))
  }

  // ---- when a code is issued ----

  /** The one value of a parameter that is sent once and not empty. */
  predicate Sends(params: Params, name: Text, value: Text) {
    value != [] && Occurrences(params, name) == [value]
  }

  /** The client named, and the registered URI of its own that it asks to be sent to. */
  predicate Trusted(config: MockConfig, params: Params, client: RegisteredClient, base: Text) {
    && Sends(params, CLIENT_ID, client.clientId) && FindClient(config.clients, client.clientId) == Some(client)
    && Sends(params, REDIRECT_URI, base) && base in client.redirectUris
  }

  /** A request for a code, with a challenge that could come from S256. */
  predicate AsksForCode(params: Params, challenge: Text) {
    && Sends(params, RESPONSE_TYPE, CODE)
    && Sends(params, CODE_CHALLENGE, challenge) && Pkce.IsValidChallenge(challenge)
    && Sends(params, CODE_CHALLENGE_METHOD, S256)
    && |Occurrences(params, STATE)| <= 1
  }

  /** The only requests a user is asked about. */
  predicate WellFormed(config: MockConfig, request: AuthorizeRequest, client: RegisteredClient, base: Text,
                       challenge: Text) {
    && Allowed(request)
    && Trusted(config, RequestParams(request), client, base)
    && AsksForCode(RequestParams(request), challenge)
  }

  lemma ValidateExact(params: Params, challenge: Text)
    ensures Validate(params) == Ok(challenge) <==> AsksForCode(params, challenge)
  {
  }

  lemma TrustedExact(config: MockConfig, params: Params, client: RegisteredClient, base: Text)
    ensures KnownClient(config, params) == Ok(client) && RegisteredRedirectUri(client, params) == Ok(base)
        <==> Trusted(config, params, client, base)
  {
  }

  /** A well-formed request that the user approves becomes one `issue_code` step for the client it
      names, with the URI and challenge it gives. */
  lemma ApprovedIssues(config: MockConfig, w: Server, request: AuthorizeRequest, client: RegisteredClient,
                       base: Text, challenge: Text, drawn: Credential)
    requires WellFormed(config, request, client, base, challenge)
    ensures var (w', r) := Authorize(config, Approve, w, request, drawn);
            && w' == Step(w, IssueCodeOp(client.clientId, base, challenge, drawn)).0
            && r == RedirectTo(base, (CODE, drawn.text), First(RequestParams(request), STATE))
  {
    TrustedExact(config, RequestParams(request), client, base);
    ValidateExact(RequestParams(request), challenge);
  }

  /** A redirect that carries an error, not a code, to a URI registered for the client named. */
  ghost predicate ErrorRedirect(config: MockConfig, params: Params, location: Text) {
    exists client, base, error :: ErrorRedirectTo(config, params, location, client, base, error)
  }

  predicate ErrorRedirectTo(config: MockConfig, params: Params, location: Text, client: RegisteredClient,
                            base: Text, error: Text) {
    Trusted(config, params, client, base) && location == Location(base, (ERROR, error), First(params, STATE))
  }

  lemma IsErrorRedirect(config: MockConfig, params: Params, client: RegisteredClient, base: Text, error: Text)
    requires Trusted(config, params, client, base)
    ensures ErrorRedirect(config, params, Location(base, (ERROR, error), First(params, STATE)))
  {
    assert ErrorRedirectTo(config, params, Location(base, (ERROR, error), First(params, STATE)), client, base, error);
  }

  /** And only such a request changes anything: in every other case the server is as it was, and
      any redirect is an error redirect. */
  lemma OthersConsumeNothing(config: MockConfig, decision: UserDecision, w: Server, request: AuthorizeRequest,
                             drawn: Credential)
    requires decision.Deny? || forall client, base, challenge :: !WellFormed(config, request, client, base, challenge)
    ensures var (w', r) := Authorize(config, decision, w, request, drawn);
            w' == w && (r.Ok? ==> ErrorRedirect(config, RequestParams(request), r.value))
  {
    var params := RequestParams(request);
    if && Allowed(request) && KnownClient(config, params).Ok?
       && RegisteredRedirectUri(KnownClient(config, params).value, params).Ok? {
      var client := KnownClient(config, params).value;
      var base := RegisteredRedirectUri(client, params).value;
      TrustedExact(config, params, client, base);
      if Validate(params).Ok? {
        ValidateExact(params, Validate(params).value);
        assert WellFormed(config, request, client, base, Validate(params).value);
      }
      TrustedConsumesNothing(config, decision, w, request, client, base, drawn, params);
    }
  }

  /** A trusted request that is not granted is answered by redirect. */
  lemma TrustedRedirects(config: MockConfig, decision: UserDecision, w: Server, request: AuthorizeRequest,
                         client: RegisteredClient, base: Text, drawn: Credential, params: Params)
    requires Allowed(request) && params == RequestParams(request)
    requires KnownClient(config, params) == Ok(client) && RegisteredRedirectUri(client, params) == Ok(base)
    requires decision.Deny? || Validate(params).Err?
    ensures var error := if Validate(params).Err? then Validate(params).error else ACCESS_DENIED;
            Authorize(config, decision, w, request, drawn)
            == (w, RedirectTo(base, (ERROR, error), First(params, STATE)))
  {
  }

  lemma TrustedConsumesNothing(config: MockConfig, decision: UserDecision, w: Server, request: AuthorizeRequest,
                               client: RegisteredClient, base: Text, drawn: Credential, params: Params)
    requires Allowed(request) && params == RequestParams(request)
    requires KnownClient(config, params) == Ok(client) && RegisteredRedirectUri(client, params) == Ok(base)
    requires Trusted(config, params, client, base)
    requires decision.Deny? || Validate(params).Err?
    ensures var (w', r) := Authorize(config, decision, w, request, drawn);
            w' == w && (r.Ok? ==> ErrorRedirect(config, params, r.value))
  {
    var error := if Validate(params).Err? then Validate(params).error else ACCESS_DENIED;
    TrustedRedirects(config, decision, w, request, client, base, drawn, params);
    IsErrorRedirect(config, params, client, base, error);
  }

  lemma TrustedBaseIsGood(config: MockConfig, params: Params, client: RegisteredClient, base: Text)
    requires ValidConfig(config) && Trusted(config, params, client, base)
    ensures GoodRedirectUri(base)
  {
    var i :| 0 <= i < |config.clients| && config.clients[i] == client;
    assert GoodClient(config.clients, i);
  }

  /** A request whose client and URI are found is answered by redirect, whatever the answer. */
  lemma TrustedAnswer(config: MockConfig, decision: UserDecision, w: Server, request: AuthorizeRequest,
                      drawn: Credential, params: Params, client: RegisteredClient, base: Text)
    returns (pair: Pair)
    requires Allowed(request) && params == RequestParams(request)
    requires KnownClient(config, params) == Ok(client) && RegisteredRedirectUri(client, params) == Ok(base)
    ensures Authorize(config, decision, w, request, drawn).1 == RedirectTo(base, pair, First(params, STATE))
  {
    pair := if Validate(params).Err? then (ERROR, Validate(params).error)
            else if decision.Deny? then (ERROR, ACCESS_DENIED) else (CODE, drawn.text);
  }

  lemma UntrustedAnswer(config: MockConfig, decision: UserDecision, w: Server, request: AuthorizeRequest,
                        drawn: Credential, params: Params)
    requires params == RequestParams(request)
    requires || !Allowed(request) || KnownClient(config, params).Err?
             || RegisteredRedirectUri(KnownClient(config, params).value, params).Err?
    ensures Authorize(config, decision, w, request, drawn).1 in
              {Err(MethodNotAllowed), Err(InvalidRequest), Err(InvalidClient)}
  {
  }

  /** What a configuration was validated for: no redirect ever fails. */
  lemma NeverInternal(config: MockConfig, decision: UserDecision, w: Server, request: AuthorizeRequest,
                      drawn: Credential)
    requires ValidConfig(config)
    ensures Authorize(config, decision, w, request, drawn).1 != Err(Internal)
  {
    var params := RequestParams(request);
    if && Allowed(request) && KnownClient(config, params).Ok?
       && RegisteredRedirectUri(KnownClient(config, params).value, params).Ok? {
      var client := KnownClient(config, params).value;
      var base := RegisteredRedirectUri(client, params).value;
      TrustedExact(config, params, client, base);
      TrustedBaseIsGood(config, params, client, base);
      var pair := TrustedAnswer(config, decision, w, request, drawn, params, client, base);
      LocationIsHeaderSafe(base, pair, First(params, STATE));
    } else {
      UntrustedAnswer(config, decision, w, request, drawn, params);
    }
  }

  lemma NoControlIsHeaderSafe(base: Text)
    ensures !HasControl(base) ==> HeaderSafe(base)
  {
    forall b | b in base ensures !HasControl(base) ==> b as int >= 32 && b as int != 127 {
      var i :| 0 <= i < |base| && base[i] == b;
      assert ControlAt(base, i) ==> HasControl(base);
    }
  }

  lemma LocationIsHeaderSafe(base: Text, pair: Pair, state: Option<Text>)
    requires !HasControl(base)
    ensures HeaderSafe(Location(base, pair, state))
  {
    NoControlIsHeaderSafe(base);
    SerializeAlphabet(Added(pair, state));
  }

  // ---- the query of the redirect ----

  /** The query of a URL without a fragment. */
  function QueryOf(url: Text): Text {
    match SplitOnce(url, '?')
    case Some((_, query)) => query
    case None => []
  }

  /** The base ends in a `?` that belongs to its query. */
  predicate EndsInsideQuery(base: Text) {
    base != [] && base[|base| - 1] == '?' && IndexOf(base, '?') < |base| - 1
  }

  lemma QueryOfAppend(base: Text, more: Text)
    requires '?' in base
    ensures QueryOf(base + more) == QueryOf(base) + more
  {
    var parts := SplitOnce(base, '?').value;
    var query: Text := parts.1 + more;
    assert base + more == parts.0 + ['?'] + query;
    SplitOnceAppend(parts.0, '?', query);
  }

  lemma SerializedStart(pairs: Params)
    ensures pairs != [] ==> Serialize(pairs) != [] && Serialize(pairs)[0] != '&'
  {
  }

  /** Queries joined with the separator the endpoint chooses. */
  lemma SeparatedQueries(base: Text, added: Text)
    requires '?' in base && !EndsInsideQuery(base)
    ensures Parse(QueryOf(base) + (Separator(base) + added)) == Parse(QueryOf(base)) + Parse(added)
  {
    var query := QueryOf(base);
    if Separator(base) == "&" {
      assert query + (Separator(base) + added) == query + "&" + added;
      ParseConcat(query, added);
    } else {
      assert Separator(base) + added == added;
      ParseAppend(query, added);
    }
  }

  lemma GluedQueries(base: Text, added: Text)
    requires EndsInsideQuery(base) && added != [] && added[0] != '&'
    ensures |Parse(QueryOf(base) + (Separator(base) + added))| == |Parse(QueryOf(base))| + |Parse(added)| - 1
  {
    assert Separator(base) + added == added;
    ParseMerged(QueryOf(base), added);
  }

  lemma QueryOfLocation(base: Text, pair: Pair, state: Option<Text>)
    ensures QueryOf(Location(base, pair, state)) ==
            var added := Serialize(Added(pair, state));
            if '?' in base then QueryOf(base) + (Separator(base) + added) else added
  {
    var added := Serialize(Added(pair, state));
    assert Location(base, pair, state) == base + (Separator(base) + added);
    if '?' in base {
      QueryOfAppend(base, Separator(base) + added);
    } else {
      SplitOnceAppend(base, '?', added);
      assert Location(base, pair, state) == base + ['?'] + added;
    }
  }

  lemma LocationQuery(base: Text, pair: Pair, state: Option<Text>)
    ensures Parse(QueryOf(Location(base, pair, state))) == Parse(QueryOf(base)) + Added(pair, state)
        <==> !EndsInsideQuery(base)
  {
    var added := Serialize(Added(pair, state));
    ParseSerialized(Added(pair, state));
    QueryOfLocation(base, pair, state);
    if '?' !in base {
      ParseOnePiece([]);
    } else if EndsInsideQuery(base) {
      SerializedStart(Added(pair, state));
      GluedQueries(base, added);
    } else {
      SeparatedQueries(base, added);
    }
  }

  lemma LocationStart(base: Text, pair: Pair, state: Option<Text>)
    ensures base <= Location(base, pair, state)
  {
  }

  /** The registered URI is kept as it is. The query law: what was registered is kept, then comes the
      new parameter and the state, if there is one. It holds exactly for the bases that do not end in
      a `?` of their query: there the new parameter is glued to the last registered one. */
  lemma RedirectQueryLaw(base: Text, pair: Pair, state: Option<Text>)
    ensures base <= Location(base, pair, state)
    ensures Parse(QueryOf(Location(base, pair, state)))
              == Parse(QueryOf(base)) + ([pair] + (if state.Some? then [(STATE, state.value)] else []))
        <==> !EndsInsideQuery(base)
  {
    LocationStart(base, pair, state);
    LocationQuery(base, pair, state);
    assert Added(pair, state) == [pair] + (if state.Some? then [(STATE, state.value)] else []);
  }
}
