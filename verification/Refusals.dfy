/** Which error a request of either endpoint is answered with, told from the request itself. */
module Refusals {
  import opened Wrappers
  import opened Bytes
  import opened Config
  import opened Errors
  import opened Form
  import opened Names
  import opened StoreModel
  import opened TokenEndpoint
  import Authorize
  import ClientAuth
  import Pkce

  // ---- the content type ----

  /** The media type of forms in any case, with white space around it, and any parameters. */
  predicate NamesForm(value: Text, pre: Text, name: Text, post: Text, parameters: Text) {
    && value == pre + name + post + parameters
    && Blank(pre) && Blank(post)
    && |name| == |FORM_MEDIA_TYPE| && (forall i | 0 <= i < |name| :: SameLetter(name[i], FORM_MEDIA_TYPE[i]))
    && (parameters != [] ==> parameters[0] == ';')
  }

  lemma MediaTypeBytes(name: Text)
    requires EqualsIgnoreCase(name, FORM_MEDIA_TYPE)
    ensures name != [] && ';' !in name && Trimmed(name)
  {
    forall i | 0 <= i < |name| ensures 32 < name[i] as int && name[i] != ';' {
      assert ToLower(name[i]) == ToLower(FORM_MEDIA_TYPE[i]);
    }
  }

  lemma BeforeParameters(value: Text, before: Text, parameters: Text)
    requires value == before + parameters && ';' !in before && (parameters != [] ==> parameters[0] == ';')
    ensures SplitOnce(value, ';') == if parameters == [] then None else Some((before, parameters[1..]))
  {
    if parameters == [] {
      assert value == before;
    } else {
      assert value == before + [';'] + parameters[1..];
      SplitOnceAppend(before, ';', parameters[1..]);
    }
  }

  lemma NoSemicolon(t: Text)
    requires Blank(t)
    ensures ';' !in t
  {
  }

  lemma NamedIsForm(value: Text, pre: Text, name: Text, post: Text, parameters: Text)
    requires ClientAuth.VisibleAscii(value) && NamesForm(value, pre, name, post, parameters)
    ensures IsFormContent(Some(value))
  {
    IgnoreCaseExact(name, FORM_MEDIA_TYPE);
    MediaTypeBytes(name);
    TrimExact(pre, name, post);
    NoSemicolon(pre);
    NoSemicolon(post);
    BeforeParameters(value, pre + name + post, parameters);
    if parameters == [] {
      assert value == pre + name + post;
    }
  }

  lemma FormIsNamed(value: Text) returns (pre: Text, name: Text, post: Text, parameters: Text)
    requires IsFormContent(Some(value))
    ensures NamesForm(value, pre, name, post, parameters)
  {
    var before;
    match SplitOnce(value, ';') {
      case Some((head, tail)) => before, parameters := head, [';'] + tail;
      case None => before, parameters := value, [];
    }
    name := Trim(before);
    pre, post := TrimSplits(before);
    IgnoreCaseExact(name, FORM_MEDIA_TYPE);
  }

  /** Which content types are read as forms. */
  lemma FormContentExact(value: Text)
    ensures IsFormContent(Some(value)) <==>
            && (forall b | b in value :: b == '\t' || 32 <= b as int < 127)
            && exists pre, name, post, parameters :: NamesForm(value, pre, name, post, parameters)
  {
    if IsFormContent(Some(value)) {
      var pre, name, post, parameters := FormIsNamed(value);
      assert NamesForm(value, pre, name, post, parameters);
    }
    if ClientAuth.VisibleAscii(value) {
      if pre, name, post, parameters :| NamesForm(value, pre, name, post, parameters) {
        NamedIsForm(value, pre, name, post, parameters);
      }
    }
  }

  // ---- /oauth/token ----

  /** The parameters that count, each of them. */
  predicate Counts(name: Text) {
    || name == "grant_type" || name == "client_id" || name == "client_secret" || name == "code"
    || name == "redirect_uri" || name == "code_verifier" || name == "refresh_token"
  }

  predicate SentTwice(params: Params, name: Text) {
    exists i, j | 0 <= i < j < |params| :: params[i].0 == name && params[j].0 == name
  }

  lemma RepeatsExact(params: Params)
    ensures Repeats(params) <==> exists name | Counts(name) :: SentTwice(params, name)
  {
    if Repeats(params) {
      var k :| 0 <= k < |KNOWN_PARAMETERS| && Unique(params, KNOWN_PARAMETERS[k]).Err?;
      UniqueIff(params, KNOWN_PARAMETERS[k]);
      assert Counts(KNOWN_PARAMETERS[k]) && SentTwice(params, KNOWN_PARAMETERS[k]);
    }
    if name :| Counts(name) && SentTwice(params, name) {
      UniqueIff(params, name);
      KnownParameter(name);
    }
  }

  lemma KnownParameter(name: Text)
    ensures Counts(name) ==> exists k | 0 <= k < |KNOWN_PARAMETERS| :: KNOWN_PARAMETERS[k] == name
  {
    var k := if name == GRANT_TYPE then 0 else if name == CLIENT_ID then 1 else if name == CLIENT_SECRET then 2
             else if name == CODE then 3 else if name == REDIRECT_URI then 4
             else if name == CODE_VERIFIER then 5 else 6;
    assert Counts(name) ==> KNOWN_PARAMETERS[k] == name;
  }

  /** What is wrong with a request before its client is looked at, if anything is. */
  ghost predicate RefusedAs(request: TokenRequest, error: ApiError) {
    var form := request.contentType.Some? && IsFormContent(request.contentType);
    var post, short := request.httpMethod == "POST", |request.body| <= 65536;
    var twice := exists name | Counts(name) :: SentTwice(Parse(request.body), name);
    match error
    case MethodNotAllowed => !post
    case UnsupportedMediaType => post && !form
    case PayloadTooLarge => post && form && !short
    case InvalidRequest => post && form && short && twice
    case _ => false
  }

  ghost predicate Reaches(request: TokenRequest) {
    && request.httpMethod == "POST" && IsFormContent(request.contentType) && |request.body| <= 65536
    && forall name | Counts(name) :: !SentTwice(Parse(request.body), name)
  }

  /** Before authentication: the method, the content type, the size and the repetitions are checked
      in this order, and a request that fails one consumes nothing. */
  lemma RefusedBeforeAuthentication(config: MockConfig, w: Server, request: TokenRequest, drawn: Fresh, error: ApiError)
    requires RefusedAs(request, error)
    ensures Token(config, w, request, drawn) == (w, Err(error))
  {
    RepeatsExact(Parse(request.body));
  }

  /** Each of the seven parameters, sent twice, gets a request refused and consumes nothing. */
  lemma RepeatedIsRefused(config: MockConfig, w: Server, request: TokenRequest, drawn: Fresh, name: Text)
    requires Counts(name) && SentTwice(Parse(request.body), name)
    ensures Token(config, w, request, drawn).0 == w && Token(config, w, request, drawn).1.Err?
    ensures request.httpMethod == "POST" && IsFormContent(request.contentType) && |request.body| <= 65536 ==>
              Token(config, w, request, drawn).1 == Err(InvalidRequest)
  {
    RepeatsExact(Parse(request.body));
  }

  /** Every request is refused in one of these ways, or reaches authentication. */
  lemma RefusedOrReaches(request: TokenRequest)
    ensures (exists error :: RefusedAs(request, error)) <==> !Reaches(request)
  {
    if !Reaches(request) {
      var error := if request.httpMethod != "POST" then MethodNotAllowed
                   else if !IsFormContent(request.contentType) then UnsupportedMediaType
                   else if |request.body| > 65536 then PayloadTooLarge else InvalidRequest;
      assert RefusedAs(request, error);
    }
  }

  /** A secret with another digest than the named client's is answered `invalid_client`, whatever
      the grant and the store, and consumes nothing; so is an id that nobody has. */
  lemma WrongSecretIsRefused(config: MockConfig, w: Server, request: TokenRequest, drawn: Fresh,
                             clientId: Text, clientSecret: Text)
    requires ClientAuth.Presents(request.authorization, Parse(request.body), clientId, clientSecret)
    requires forall client | client in config.clients && client.clientId == clientId ::
               Pkce.Sha256(client.clientSecret) != Pkce.Sha256(clientSecret)
    ensures Token(config, w, request, drawn).0 == w && Token(config, w, request, drawn).1.Err?
    ensures Reaches(request) && (request.authorization == [] || !Contains(Parse(request.body), CLIENT_SECRET)) ==>
              Token(config, w, request, drawn).1 == Err(InvalidClientCredentials)
  {
    ClientAuth.WrongSecretFails(config.clients, request.authorization, Parse(request.body), clientId, clientSecret);
    RepeatsExact(Parse(request.body));
  }

  /** What is told to a client that authenticated and lacks a parameter or names no known grant. */
  predicate GrantRefusals(params: Params, basic: bool, r: Result<TokenResponse, ApiError>) {
    match Value(params, GRANT_TYPE)
    case None => r == Err(InvalidRequest)
    case Some(grant) =>
      if grant == AUTHORIZATION_CODE then
        (r == Err(InvalidRequest) <==>
           Value(params, CODE) == None || Value(params, REDIRECT_URI) == None || Value(params, CODE_VERIFIER) == None)
      else if grant == REFRESH_TOKEN then (r == Err(InvalidRequest) <==> Value(params, REFRESH_TOKEN) == None)
      else if grant == CLIENT_CREDENTIALS then (r == Err(InvalidClientCredentials) <==> !basic)
      else r == Err(UnsupportedGrant)
  }

  lemma DispatchRefusals(config: MockConfig, w: Server, a: ClientAuth.Authenticated, params: Params, drawn: Fresh)
    ensures GrantRefusals(params, a.via.Basic?, Dispatch(config, w, a, params, drawn).1)
  {
    GrantsAreDistinct();
  }

  /** After authentication: which error, exactly, apart from the refusals of the store. */
  lemma RefusedAfterAuthentication(config: MockConfig, w: Server, request: TokenRequest, drawn: Fresh,
                                   a: ClientAuth.Authenticated)
    requires Reaches(request)
    requires ClientAuth.Authenticate(config.clients, request.authorization, Parse(request.body)) == Ok(a)
    ensures GrantRefusals(Parse(request.body), a.via.Basic?, Token(config, w, request, drawn).1)
  {
    RepeatsExact(Parse(request.body));
    DispatchRefusals(config, w, a, Parse(request.body), drawn);
  }

  // ---- /authorize ----

  /** The user agent asks with `GET` or `HEAD`. */
  predicate Asks(request: Authorize.AuthorizeRequest) {
    request.httpMethod == "GET" || request.httpMethod == "HEAD"
  }

  predicate IsRegistered(config: MockConfig, clientId: Text) {
    exists client | client in config.clients :: client.clientId == clientId
  }

  /** No client is named: the error is not sent anywhere but to the user agent. */
  lemma UnknownClientIsRefused(config: MockConfig, decision: UserDecision, w: Server,
                               request: Authorize.AuthorizeRequest, drawn: Credential)
    ensures var params := Authorize.RequestParams(request);
            var answer := Authorize.Authorize(config, decision, w, request, drawn);
            && (!Asks(request) ==> answer == (w, Err(MethodNotAllowed)))
            && (Asks(request) && SentTwice(params, CLIENT_ID) ==> answer == (w, Err(InvalidRequest)))
            && (Asks(request) && !SentTwice(params, CLIENT_ID)
                && (forall id | Authorize.Sends(params, CLIENT_ID, id) :: !IsRegistered(config, id)) ==>
                  answer == (w, Err(InvalidClient)))
  {
    var params := Authorize.RequestParams(request);
    UniqueIff(params, CLIENT_ID);
    var id := Unique(params, CLIENT_ID);
    if id.Ok? && id.value.Some? {
      assert Authorize.Sends(params, CLIENT_ID, id.value.value);
      assert FindClient(config.clients, id.value.value).Some? ==> IsRegistered(config, id.value.value);
    }
  }

  /** The client is named, and the URI is none of its own: likewise. */
  lemma UntrustedUriIsRefused(config: MockConfig, decision: UserDecision, w: Server,
                              request: Authorize.AuthorizeRequest, drawn: Credential, client: RegisteredClient)
    requires Asks(request) && Authorize.Sends(Authorize.RequestParams(request), CLIENT_ID, client.clientId)
    requires FindClient(config.clients, client.clientId) == Some(client)
    requires forall uri | Authorize.Sends(Authorize.RequestParams(request), REDIRECT_URI, uri) ::
               uri !in client.redirectUris
    ensures Authorize.Authorize(config, decision, w, request, drawn) == (w, Err(InvalidRequest))
  {
    var params := Authorize.RequestParams(request);
    var uri := Unique(params, REDIRECT_URI);
    if uri.Ok? && uri.value.Some? {
      assert Authorize.Sends(params, REDIRECT_URI, uri.value.value);
    }
  }

  /** One response type is asked for, and it is not a code. */
  ghost predicate AsksForOther(params: Params) {
    exists other | other != CODE :: Authorize.Sends(params, RESPONSE_TYPE, other)
  }

  ghost predicate AsksForAnyCode(params: Params) {
    exists challenge :: Authorize.AsksForCode(params, challenge)
  }

  /** What is reported of a request that does not ask for a code. */
  lemma ValidateErrors(params: Params)
    ensures Authorize.Validate(params).Ok? <==> AsksForAnyCode(params)
    ensures !AsksForAnyCode(params) ==>
              Authorize.Validate(params)
              == Err(if AsksForOther(params) then UNSUPPORTED_RESPONSE_TYPE else INVALID_REQUEST)
    ensures AsksForAnyCode(params) ==> !AsksForOther(params)
  {
    if Authorize.Validate(params).Ok? {
      Authorize.ValidateExact(params, Authorize.Validate(params).value);
    }
    if challenge :| Authorize.AsksForCode(params, challenge) {
      Authorize.ValidateExact(params, challenge);
    }
    var asked := Unique(params, RESPONSE_TYPE);
    if asked.Ok? && asked.value.Some? {
      assert Authorize.Sends(params, RESPONSE_TYPE, asked.value.value);
    }
  }

  /** A client and one of its URIs are named: every refusal is a redirect to it that says why, first
      what is wrong with the request and only then that the user refused. */
  lemma TrustedIsToldWhy(config: MockConfig, decision: UserDecision, w: Server,
                         request: Authorize.AuthorizeRequest, drawn: Credential, client: RegisteredClient, base: Text)
    requires ValidConfig(config) && Asks(request)
    requires Authorize.Trusted(config, Authorize.RequestParams(request), client, base)
    requires decision.Deny? || !AsksForAnyCode(Authorize.RequestParams(request))
    ensures var params := Authorize.RequestParams(request);
            var error := if AsksForOther(params) then UNSUPPORTED_RESPONSE_TYPE
                         else if !AsksForAnyCode(params) then INVALID_REQUEST else ACCESS_DENIED;
            Authorize.Authorize(config, decision, w, request, drawn)
            == (w, Ok(Authorize.Location(base, (ERROR, error), First(params, STATE))))
  {
    var params := Authorize.RequestParams(request);
    Authorize.TrustedExact(config, params, client, base);
    ValidateErrors(params);
    Authorize.TrustedRedirects(config, decision, w, request, client, base, drawn, params);
    Authorize.TrustedBaseIsGood(config, params, client, base);
    var error := if Authorize.Validate(params).Err? then Authorize.Validate(params).error else ACCESS_DENIED;
    Authorize.LocationIsHeaderSafe(base, (ERROR, error), First(params, STATE));
  }
}
