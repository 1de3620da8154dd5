/** The configuration a mock server starts from, and its validation. */
module Config {
  import opened Wrappers
  import opened Bytes
  import opened Time
  import opened Utf8

  datatype RegisteredClient = RegisteredClient(clientId: Text, clientSecret: Text, redirectUris: seq<Text>)

  datatype UserDecision = Approve | Deny

  datatype MockConfig = MockConfig(
    clients: seq<RegisteredClient>,
    accessTokenLifetime: Duration,
    authorizationCodeLifetime: Duration,
    userDecision: UserDecision)

  /** Whether the URL parser accepts a text as an absolute URL: any predicate. */
  const ParsesAsUrl: Text -> bool

  /** A control character in UTF-8: an ASCII one, or one of U+0080 to U+009F. */
  predicate ControlAt(text: Text, i: nat)
    requires i < |text|
  {
    || text[i] as int < 32
    || text[i] as int == 127
    || (text[i] as int == 0xC2 && i + 1 < |text| && 0x80 <= text[i + 1] as int <= 0x9F)
  }

  predicate HasControl(text: Text) {
    exists i | 0 <= i < |text| :: ControlAt(text, i)
  }

  /** `char::is_control`: the general category Cc. */
  predicate IsControl(n: int) {
    0 <= n < 32 || 127 <= n <= 159
  }

  lemma ControlInHead(head: Text, n: int, i: nat)
    requires Encodes(head, n) && i < |head|
    ensures ControlAt(head, i) <==> i == 0 && IsControl(n)
  {
  }

  lemma {:induction false} ControlAfterHead(head: Text, n: int, rest: Text)
    requires Encodes(head, n)
    ensures HasControl(head + rest) <==> IsControl(n) || HasControl(rest)
  {
    var t := head + rest;
    forall i | 0 <= i < |head| ensures ControlAt(t, i) <==> i == 0 && IsControl(n) {
      ControlInHead(head, n, i);
    }
    forall i | 0 <= i < |rest| ensures ControlAt(t, |head| + i) <==> ControlAt(rest, i) {
    }
    if j :| 0 <= j < |t| && ControlAt(t, j) {
      assert j >= |head| ==> ControlAt(rest, j - |head|);
    }
    if j :| 0 <= j < |rest| && ControlAt(rest, j) {
      assert ControlAt(t, |head| + j);
    }
    if IsControl(n) {
      assert ControlAt(t, 0);
    }
  }

  /** A UTF-8 text has a control character exactly when one of its characters is one. */
  lemma {:induction false} ControlExact(text: Text, parts: seq<Text>)
    requires EncodesAll(text, parts)
    ensures HasControl(text) <==> exists k, n :: 0 <= k < |parts| && Encodes(parts[k], n) && IsControl(n)
    decreases |parts|
  {
    if parts != [] {
      var rest := parts[1..];
      assert EncodesOne(parts[0]);
      var n :| Encodes(parts[0], n);
      ControlAfterHead(parts[0], n, Flatten(rest));
      ControlExact(Flatten(rest), rest);
      if k, m :| 0 <= k < |rest| && Encodes(rest[k], m) && IsControl(m) {
        assert Encodes(parts[k + 1], m);
      }
      if k, m :| 0 <= k < |parts| && Encodes(parts[k], m) && IsControl(m) {
        if k == 0 {
          EncodesOnlyOne(parts[0], n, m);
        } else {
          assert Encodes(rest[k - 1], m);
        }
      }
    }
  }

  predicate GoodRedirectUri(uri: Text) {
    ParsesAsUrl(uri) && '#' !in uri && !HasControl(uri)
  }

  predicate GoodLifetime(lifetime: Duration) {
    lifetime > 0 && lifetime % NANOS_PER_SEC == 0
  }

  datatype ConfigError =
    | BadAccessTokenLifetime
    | BadAuthorizationCodeLifetime
    | DuplicateClient(clientId: Text)
    | BadRedirectUri(uri: Text)

  /** No earlier client has the same id, and every redirect URI can be used. */
  predicate GoodClient(clients: seq<RegisteredClient>, i: nat)
    requires i < |clients|
  {
    FirstOfItsId(clients, i) && GoodUris(clients[i])
  }

  predicate FirstOfItsId(clients: seq<RegisteredClient>, i: nat)
    requires i < |clients|
  {
    forall j | 0 <= j < i :: clients[j].clientId != clients[i].clientId
  }

  predicate GoodUris(client: RegisteredClient) {
    forall uri | uri in client.redirectUris :: GoodRedirectUri(uri)
  }

  predicate ValidConfig(config: MockConfig) {
    && GoodLifetime(config.accessTokenLifetime)
    && GoodLifetime(config.authorizationCodeLifetime)
    && forall i | 0 <= i < |config.clients| :: GoodClient(config.clients, i)
  }

  /** The client at `i` is the first bad one, and this is what is wrong with it. */
  predicate FirstBadClient(clients: seq<RegisteredClient>, i: nat, error: ConfigError)
    requires i < |clients|
  {
    && (forall j | 0 <= j < i :: GoodClient(clients, j))
    && !GoodClient(clients, i)
    && (if FirstOfItsId(clients, i)
        then error.BadRedirectUri? && FirstBadUri(clients[i].redirectUris, error.uri)
        else error == DuplicateClient(clients[i].clientId))
  }

  predicate FirstBadUri(uris: seq<Text>, uri: Text) {
    exists k | 0 <= k < |uris| ::
      uris[k] == uri && !GoodRedirectUri(uri) && forall l | 0 <= l < k :: GoodRedirectUri(uris[l])
  }

  /** A valid configuration, spelled out. */
  lemma ValidExact(config: MockConfig)
    ensures ValidConfig(config) <==>
            && GoodLifetime(config.accessTokenLifetime) && GoodLifetime(config.authorizationCodeLifetime)
            && (forall i, j | 0 <= i < j < |config.clients| :: config.clients[i].clientId != config.clients[j].clientId)
            && (forall i | 0 <= i < |config.clients| :: GoodUris(config.clients[i]))
  {
    if ValidConfig(config) {
      forall i, j | 0 <= i < j < |config.clients| ensures config.clients[i].clientId != config.clients[j].clientId {
        assert GoodClient(config.clients, j);
      }
      forall i | 0 <= i < |config.clients| ensures GoodUris(config.clients[i]) {
        assert GoodClient(config.clients, i);
      }
    }
  }

  /** Succeeds exactly on a valid configuration, and otherwise names the first thing wrong. */
  method Validate(config: MockConfig) returns (r: Result<(), ConfigError>)
    ensures r.Ok? <==> ValidConfig(config)
    ensures r.Ok? <==>
            && config.accessTokenLifetime > 0 && config.accessTokenLifetime % 1_000_000_000 == 0
            && config.authorizationCodeLifetime > 0 && config.authorizationCodeLifetime % 1_000_000_000 == 0
            && (forall i, j | 0 <= i < j < |config.clients| :: config.clients[i].clientId != config.clients[j].clientId)
            && (forall i | 0 <= i < |config.clients| :: forall uri | uri in config.clients[i].redirectUris ::
                  ParsesAsUrl(uri) && '#' !in uri && !HasControl(uri))
    ensures r == Err(BadAccessTokenLifetime) <==> !GoodLifetime(config.accessTokenLifetime)
    ensures r == Err(BadAuthorizationCodeLifetime) <==>
            GoodLifetime(config.accessTokenLifetime) && !GoodLifetime(config.authorizationCodeLifetime)
    ensures r.Err? && (r.error.DuplicateClient? || r.error.BadRedirectUri?) ==>
            exists i | 0 <= i < |config.clients| :: FirstBadClient(config.clients, i, r.error)
  {
    ValidExact(config);
    if config.accessTokenLifetime == 0 || config.accessTokenLifetime % NANOS_PER_SEC != 0 {
      return Err(BadAccessTokenLifetime);
    }
    if config.authorizationCodeLifetime == 0 || config.authorizationCodeLifetime % NANOS_PER_SEC != 0 {
      return Err(BadAuthorizationCodeLifetime);
    }
    var clients := config.clients;
    var seen: set<Text> := {};
    for i := 0 to |clients|
      invariant seen == set j | 0 <= j < i :: clients[j].clientId
      invariant forall j | 0 <= j < i :: GoodClient(clients, j)
    {
      if clients[i].clientId in seen {
        var error := DuplicateClient(clients[i].clientId);
        assert FirstBadClient(clients, i, error);
        return Err(error);
      }
      seen := seen + {clients[i].clientId};
      var uris := clients[i].redirectUris;
      for k := 0 to |uris|
        invariant forall l | 0 <= l < k :: GoodRedirectUri(uris[l])
      {
        if !ParsesAsUrl(uris[k]) || '#' in uris[k] || HasControl(uris[k]) {
          assert !GoodRedirectUri(uris[k]) && FirstBadUri(uris, uris[k]);
          assert !GoodUris(clients[i]);
          assert FirstBadClient(clients, i, BadRedirectUri(uris[k]));
          return Err(BadRedirectUri(uris[k]));
        }
      }
    }
    return Ok(());
  }

  /** Looks an id up. */
  function FindClient(clients: seq<RegisteredClient>, clientId: Text): (client: Option<RegisteredClient>)
    ensures client.Some? ==> client.value in clients && client.value.clientId == clientId
    ensures client.None? <==> forall other | other in clients :: other.clientId != clientId
  {
    if clients == [] then None
    else if clients[0].clientId == clientId then Some(clients[0])
    else FindClient(clients[1..], clientId)
  }

  /** In a valid configuration an id names one client. */
  lemma {:induction false} IdNamesClient(clients: seq<RegisteredClient>, client: RegisteredClient)
    requires client in clients && forall i | 0 <= i < |clients| :: FirstOfItsId(clients, i)
    ensures FindClient(clients, client.clientId) == Some(client)
  {
    var k :| 0 <= k < |clients| && clients[k] == client;
    if k > 0 {
      var rest := clients[1..];
      assert rest[k - 1] == client;
      assert FirstOfItsId(clients, k);
      forall i | 0 <= i < |rest| ensures FirstOfItsId(rest, i) {
        assert FirstOfItsId(clients, i + 1);
        assert forall j | 0 <= j < i :: rest[j] == clients[j + 1];
      }
      IdNamesClient(rest, client);
    }
  }
}
