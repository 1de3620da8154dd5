/** Who sent a token request: a Basic header, or credentials in the form. */
module ClientAuth {
  import opened Wrappers
  import opened Bytes
  import opened Config
  import opened Errors
  import opened Names
  import opened Utf8
  import Base64
  import Form
  import Pkce

  datatype Method = Basic | Body

  datatype Authenticated = Authenticated(client: RegisteredClient, via: Method)

  // ---- texts ----

  /** `HeaderValue::to_str` accepts these bytes only. */
  predicate VisibleAscii(value: Text) {
    forall b | b in value :: b == '\t' || 32 <= b as int < 127
  }

  // ---- the Basic scheme ----

  /** What the `Authorization` headers, all of them, present. */
  function BasicCredentials(headers: seq<Text>): Option<(Text, Text)> {
    if |headers| != 1 || !VisibleAscii(headers[0]) then None
    else match SplitOnce(headers[0], ' ')
      case None => None
      case Some((scheme, encoded)) =>
        if !EqualsIgnoreCase(scheme, "basic") then None
        else match Base64.DecodePadded(Base64.Standard, Trim(encoded))
          case None => None
          case Some(decoded) =>
            if !IsUtf8(decoded) then None
            else match SplitOnce(decoded, ':')
              case None => None
              case Some((clientId, clientSecret)) =>
                if clientId == [] || clientSecret == [] then None else Some((clientId, clientSecret))
  }

  /** The comparison is between digests. */
  predicate SecretsEqual(expected: Text, presented: Text) {
    Pkce.Sha256(expected) == Pkce.Sha256(presented)
  }

  function Presented(headers: seq<Text>, params: Form.Params): Result<(Method, Text, Text), ApiError> {
    if headers != [] then
      match BasicCredentials(headers)
      case None => Err(InvalidClientCredentials)
      case Some((clientId, clientSecret)) =>
        if Form.Contains(params, CLIENT_SECRET) then Err(InvalidRequest)
        else
          var bodyId := Form.Value(params, CLIENT_ID);
          if bodyId.Some? && bodyId.value != clientId then Err(InvalidClientCredentials)
          else Ok((Basic, clientId, clientSecret))
    else
      match (Form.Value(params, CLIENT_ID), Form.Value(params, CLIENT_SECRET))
      case (Some(clientId), Some(clientSecret)) => Ok((Body, clientId, clientSecret))
      case _ => Err(InvalidClientCredentials)
  }

  function Authenticate(clients: seq<RegisteredClient>, headers: seq<Text>, params: Form.Params)
    : Result<Authenticated, ApiError>
  {
    match Presented(headers, params)
    case Err(error) => Err(error)
    case Ok((via, clientId, clientSecret)) =>
      var client := FindClient(clients, clientId);
      var expected := if client.Some? then client.value.clientSecret else [];
      var secretMatches := SecretsEqual(expected, clientSecret);
      if client.Some? && secretMatches then Ok(Authenticated(client.value, via))
      else Err(InvalidClientCredentials)
  }

  // ---- what it accepts ----

  /** The way RFC 7617 section 2 writes the credentials, with any case for the scheme and up to the
      canonical padding. */
  function BasicHeader(scheme: Text, clientId: Text, clientSecret: Text, padding: nat): Text {
    scheme + [' '] + (EncodedPair(clientId, clientSecret) + seq(padding, i => '='))
  }

  lemma EncodedText(bytes: Text, padding: nat, text: Text)
    requires text == Base64.Encode(Base64.Standard, bytes) + seq(padding, i => '=')
    ensures forall b | b in text :: 32 < b as int < 127
  {
    var encoded := Base64.Encode(Base64.Standard, bytes);
    Base64.EncodeShape(Base64.Standard, bytes);
    assert forall i | 0 <= i < |encoded| :: Base64.InAlphabet(Base64.Standard, encoded[i]);
  }

  /** The parts of a colon-separated pair, when the id has no colon. */
  predicate CanUseBasic(clientId: Text, clientSecret: Text) {
    && clientId != [] && clientSecret != [] && ':' !in clientId
    && IsUtf8(clientId) && IsUtf8(clientSecret)
  }

  function EncodedPair(clientId: Text, clientSecret: Text): Text {
    Base64.Encode(Base64.Standard, clientId + [':'] + clientSecret)
  }

  /** A header that carries the credentials: the scheme in any case, and after one space the encoded
      pair, with spaces and tabs around it and with no more than its canonical padding. */
  predicate Carries(header: Text, scheme: Text, pre: Text, encoded: Text, padding: nat, post: Text) {
    && |scheme| == 5 && (forall i | 0 <= i < 5 :: SameLetter(scheme[i], "basic"[i]))
    && (forall i | 0 <= i < |pre| :: pre[i] == ' ' || pre[i] == '\t')
    && (forall i | 0 <= i < |post| :: post[i] == ' ' || post[i] == '\t')
    && padding <= (4 - |encoded| % 4) % 4
    && header == scheme + [' '] + (pre + (encoded + seq(padding, i => '=')) + post)
  }

  lemma {:induction false} StrippedPadding(text: Text) returns (padding: nat)
    ensures text == Base64.StripPadding(text) + seq(padding, i => '=')
  {
    if text != [] && text[|text| - 1] == '=' {
      var shorter := StrippedPadding(text[..|text| - 1]);
      padding := shorter + 1;
      assert seq(padding, i => '=') == seq(shorter, i => '=') + ['='];
    } else {
      padding := 0;
    }
  }

  /** What the padded decoder accepts is an encoding with some of its padding. */
  lemma PaddedIsEncoded(text: Text, bytes: Text) returns (padding: nat)
    requires Base64.DecodePadded(Base64.Standard, text) == Some(bytes)
    ensures var encoded := Base64.Encode(Base64.Standard, bytes);
            text == encoded + seq(padding, i => '=') && padding <= (4 - |encoded| % 4) % 4
  {
    padding := StrippedPadding(text);
    Base64.DecodeExact(Base64.Standard, Base64.StripPadding(text), bytes);
  }

  lemma CredentialsSplit(decoded: Text, clientId: Text, clientSecret: Text)
    requires IsUtf8(decoded) && SplitOnce(decoded, ':') == Some((clientId, clientSecret))
    requires clientId != [] && clientSecret != []
    ensures decoded == clientId + [':'] + clientSecret && CanUseBasic(clientId, clientSecret)
  {
    Utf8Split(clientId, ':', clientSecret);
  }

  /** Whatever is read could have been written: nothing else authenticates with Basic. */
  lemma BasicReadsWhatIsWritten(header: Text, clientId: Text, clientSecret: Text)
    returns (scheme: Text, pre: Text, padding: nat, post: Text)
    requires BasicCredentials([header]) == Some((clientId, clientSecret))
    ensures CanUseBasic(clientId, clientSecret)
    ensures Carries(header, scheme, pre, EncodedPair(clientId, clientSecret), padding, post)
  {
    var parts := SplitOnce(header, ' ').value;
    scheme := parts.0;
    IgnoreCaseExact(scheme, "basic");
    pre, post := TrimSplits(parts.1);
    var trimmed := Trim(parts.1);
    var decoded := Base64.DecodePadded(Base64.Standard, trimmed).value;
    CredentialsSplit(decoded, clientId, clientSecret);
    padding := PaddedIsEncoded(trimmed, decoded);
    VisibleParts(header, scheme, pre, trimmed, post);
  }

  lemma VisibleParts(header: Text, scheme: Text, pre: Text, body: Text, post: Text)
    requires header == scheme + [' '] + (pre + body + post) && VisibleAscii(header) && Blank(pre) && Blank(post)
    ensures forall i | 0 <= i < |pre| :: pre[i] == ' ' || pre[i] == '\t'
    ensures forall i | 0 <= i < |post| :: post[i] == ' ' || post[i] == '\t'
  {
    forall i | 0 <= i < |pre| ensures pre[i] == ' ' || pre[i] == '\t' {
      assert header[|scheme| + 1 + i] == pre[i] && pre[i] in header;
    }
    forall i | 0 <= i < |post| ensures post[i] == ' ' || post[i] == '\t' {
      assert header[|scheme| + 1 + |pre| + |body| + i] == post[i] && post[i] in header;
    }
  }

  /** And whatever is written that way is read. */
  lemma BasicIsRead(header: Text, clientId: Text, clientSecret: Text, scheme: Text, pre: Text, padding: nat, post: Text)
    requires CanUseBasic(clientId, clientSecret)
    requires Carries(header, scheme, pre, EncodedPair(clientId, clientSecret), padding, post)
    ensures BasicCredentials([header]) == Some((clientId, clientSecret))
  {
    var pair := clientId + [':'] + clientSecret;
    var encoded := Base64.Encode(Base64.Standard, pair) + seq(padding, i => '=');
    IgnoreCaseExact(scheme, "basic");
    EncodedText(pair, padding, encoded);
    SchemeIsWord(scheme);
    CarriedIsVisible(header, scheme, pre, encoded, post);
    SplitOnceAppend(scheme, ' ', pre + encoded + post);
    TrimExact(pre, encoded, post);
    Base64.DecodePaddedExact(Base64.Standard, pair, padding);
    PairIsRead(clientId, clientSecret);
  }

  lemma SchemeIsWord(scheme: Text)
    requires |scheme| == 5 && forall i | 0 <= i < 5 :: SameLetter(scheme[i], "basic"[i])
    ensures forall b | b in scheme :: IsAlphanumeric(b)
  {
  }

  lemma CarriedIsVisible(header: Text, scheme: Text, pre: Text, encoded: Text, post: Text)
    requires header == scheme + [' '] + (pre + encoded + post)
    requires forall b | b in scheme :: IsAlphanumeric(b)
    requires forall b | b in encoded :: 32 < b as int < 127
    requires forall i | 0 <= i < |pre| :: pre[i] == ' ' || pre[i] == '\t'
    requires forall i | 0 <= i < |post| :: post[i] == ' ' || post[i] == '\t'
    ensures VisibleAscii(header)
  {
  }

  lemma PairIsRead(clientId: Text, clientSecret: Text)
    requires CanUseBasic(clientId, clientSecret)
    ensures IsUtf8(clientId + [':'] + clientSecret)
    ensures SplitOnce(clientId + [':'] + clientSecret, ':') == Some((clientId, clientSecret))
  {
    SplitOnceAppend(clientId, ':', clientSecret);
    assert IsUtf8([':']);
    Utf8Concat(clientId, [':']);
    Utf8Concat(clientId + [':'], clientSecret);
  }

  /** Reading a Basic header undoes writing it, whatever the secret holds. */
  lemma BasicRoundTrip(scheme: Text, clientId: Text, clientSecret: Text, padding: nat)
    requires EqualsIgnoreCase(scheme, "basic") && CanUseBasic(clientId, clientSecret)
    requires padding <= (4 - |EncodedPair(clientId, clientSecret)| % 4) % 4
    ensures BasicCredentials([BasicHeader(scheme, clientId, clientSecret, padding)]) == Some((clientId, clientSecret))
  {
    var encoded := EncodedPair(clientId, clientSecret) + seq(padding, i => '=');
    IgnoreCaseExact(scheme, "basic");
    assert [] + encoded + [] == encoded;
    BasicIsRead(BasicHeader(scheme, clientId, clientSecret, padding), clientId, clientSecret, scheme, [], padding, []);
  }

  /** A header is read as these credentials exactly when it carries them. */
  lemma BasicHeaderExact(header: Text, clientId: Text, clientSecret: Text)
    ensures BasicCredentials([header]) == Some((clientId, clientSecret)) <==>
            && CanUseBasic(clientId, clientSecret)
            && exists scheme, pre, padding, post ::
                 Carries(header, scheme, pre, EncodedPair(clientId, clientSecret), padding, post)
  {
    var encoded := EncodedPair(clientId, clientSecret);
    if BasicCredentials([header]) == Some((clientId, clientSecret)) {
      var scheme, pre, padding, post := BasicReadsWhatIsWritten(header, clientId, clientSecret);
      assert Carries(header, scheme, pre, encoded, padding, post);
    }
    if CanUseBasic(clientId, clientSecret) {
      if scheme, pre, padding: nat, post :| Carries(header, scheme, pre, encoded, padding, post) {
        BasicIsRead(header, clientId, clientSecret, scheme, pre, padding, post);
      }
    }
  }

  lemma ReadIsUsable(headers: seq<Text>, clientId: Text, clientSecret: Text)
    requires BasicCredentials(headers) == Some((clientId, clientSecret))
    ensures CanUseBasic(clientId, clientSecret)
  {
    var header := headers[0];
    assert headers == [header];
    var scheme, pre, padding, post := BasicReadsWhatIsWritten(header, clientId, clientSecret);
  }

  lemma UsableIsRead(clientId: Text, clientSecret: Text) returns (headers: seq<Text>)
    requires CanUseBasic(clientId, clientSecret)
    ensures BasicCredentials(headers) == Some((clientId, clientSecret))
  {
    var scheme: Text := "Basic";
    headers := [BasicHeader(scheme, clientId, clientSecret, 0)];
    BasicRoundTrip(scheme, clientId, clientSecret, 0);
  }

  /** The credentials that any headers at all can present with Basic: an id that is empty, or holds
      a colon, never can, nor an empty secret or bytes that are not UTF-8. */
  lemma BasicExactly(clientId: Text, clientSecret: Text)
    ensures (exists headers :: BasicCredentials(headers) == Some((clientId, clientSecret)))
        <==> CanUseBasic(clientId, clientSecret)
  {
    if headers :| BasicCredentials(headers) == Some((clientId, clientSecret)) {
      ReadIsUsable(headers, clientId, clientSecret);
    }
    if CanUseBasic(clientId, clientSecret) {
      var headers := UsableIsRead(clientId, clientSecret);
      assert BasicCredentials(headers) == Some((clientId, clientSecret));
    }
  }

  /** Authentication succeeds exactly when one method presents the id of a registered client with
      a secret of the same digest: by Basic with no secret in the body and no other id there, or,
      with no `Authorization` header at all, by the body. */
  lemma AuthenticateExact(clients: seq<RegisteredClient>, headers: seq<Text>, params: Form.Params, a: Authenticated)
    ensures Authenticate(clients, headers, params) == Ok(a) <==>
            && FindClient(clients, a.client.clientId) == Some(a.client)
            && (match a.via
                case Basic =>
                  && BasicCredentials(headers).Some?
                  && BasicCredentials(headers).value.0 == a.client.clientId
                  && Pkce.Sha256(a.client.clientSecret) == Pkce.Sha256(BasicCredentials(headers).value.1)
                  && !Form.Contains(params, CLIENT_SECRET)
                  && Form.Value(params, CLIENT_ID) in {None, Some(a.client.clientId)}
                case Body =>
                  && headers == []
                  && Form.Value(params, CLIENT_ID) == Some(a.client.clientId)
                  && Form.Value(params, CLIENT_SECRET).Some?
                  && Pkce.Sha256(a.client.clientSecret) == Pkce.Sha256(Form.Value(params, CLIENT_SECRET).value))
  {
  }

  /** The credentials a request presents, by either method. */
  predicate Presents(headers: seq<Text>, params: Form.Params, clientId: Text, clientSecret: Text) {
    || BasicCredentials(headers) == Some((clientId, clientSecret))
    || (headers == [] && Form.Value(params, CLIENT_ID) == Some(clientId)
        && Form.Value(params, CLIENT_SECRET) == Some(clientSecret))
  }

  /** A secret with another digest than that of every client of the id is refused, and so is an id
      that nobody has; an unusable mix of methods is refused in its own way. */
  lemma WrongSecretFails(clients: seq<RegisteredClient>, headers: seq<Text>, params: Form.Params,
                         clientId: Text, clientSecret: Text)
    requires Presents(headers, params, clientId, clientSecret)
    requires forall client | client in clients && client.clientId == clientId ::
               Pkce.Sha256(client.clientSecret) != Pkce.Sha256(clientSecret)
    ensures Authenticate(clients, headers, params) ==
            Err(if headers != [] && Form.Contains(params, CLIENT_SECRET) then InvalidRequest
                else InvalidClientCredentials)
  {
  }

  /** When no other text has the digest of a client's secret, only that secret authenticates it. */
  lemma OnlyTheSecretAuthenticates(clients: seq<RegisteredClient>, headers: seq<Text>, params: Form.Params,
                                   a: Authenticated)
    requires forall text | Pkce.Sha256(text) == Pkce.Sha256(a.client.clientSecret) :: text == a.client.clientSecret
    requires Authenticate(clients, headers, params) == Ok(a)
    ensures Presents(headers, params, a.client.clientId, a.client.clientSecret)
  {
    AuthenticateExact(clients, headers, params, a);
  }

  /** A failure is an invalid request exactly when usable Basic credentials come with a secret in the
      body, and otherwise always the same. */
  lemma FailureExact(clients: seq<RegisteredClient>, headers: seq<Text>, params: Form.Params)
    requires Authenticate(clients, headers, params).Err?
    ensures Authenticate(clients, headers, params).error ==
            if BasicCredentials(headers).Some? && Form.Contains(params, CLIENT_SECRET) then InvalidRequest
            else InvalidClientCredentials
  {
  }

  /** A header that is not usable fails the request even with good credentials in the body. */
  lemma HeaderIsTheAttempt(clients: seq<RegisteredClient>, headers: seq<Text>, params: Form.Params)
    requires headers != [] && BasicCredentials(headers).None?
    ensures Authenticate(clients, headers, params) == Err(InvalidClientCredentials)
  {
  }

  /** Why authentication failed cannot be told from the answer. */
  lemma FailuresLookTheSame(clients: seq<RegisteredClient>, others: seq<RegisteredClient>,
                            headers: seq<Text>, params: Form.Params)
    requires Authenticate(clients, headers, params).Err? && Authenticate(others, headers, params).Err?
    ensures Authenticate(clients, headers, params) == Authenticate(others, headers, params)
  {
  }

  /** A registered client that can be written as a Basic header authenticates with it. */
  lemma RegisteredClientAuthenticates(config: MockConfig, client: RegisteredClient, scheme: Text, padding: nat,
                                      params: Form.Params)
    requires ValidConfig(config) && client in config.clients
    requires EqualsIgnoreCase(scheme, "basic") && CanUseBasic(client.clientId, client.clientSecret)
    requires padding <= (4 - |EncodedPair(client.clientId, client.clientSecret)| % 4) % 4
    requires !Form.Contains(params, CLIENT_SECRET)
    requires Form.Value(params, CLIENT_ID) in {None, Some(client.clientId)}
    ensures Authenticate(config.clients, [BasicHeader(scheme, client.clientId, client.clientSecret, padding)], params)
         == Ok(Authenticated(client, Basic))
  {
    BasicRoundTrip(scheme, client.clientId, client.clientSecret, padding);
    assert forall i | 0 <= i < |config.clients| :: GoodClient(config.clients, i) ==> FirstOfItsId(config.clients, i);
    IdNamesClient(config.clients, client);
  }
}
