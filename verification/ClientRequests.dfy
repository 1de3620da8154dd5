/** What the client sends to the two OAuth endpoints: the query of the authorize URL and the forms
    of the token requests. */
module ClientRequests {
  import opened Wrappers
  import opened Bytes
  import opened Form
  import opened Names

  function AuthorizeParams(clientId: Text, redirectUri: Text, codeChallenge: Text, state: Text): Params {
    [(CLIENT_ID, clientId), (REDIRECT_URI, redirectUri), (RESPONSE_TYPE, CODE),
     (CODE_CHALLENGE, codeChallenge), (CODE_CHALLENGE_METHOD, S256), (STATE, state)]
  }

  function ExchangeForm(clientId: Text, clientSecret: Text, code: Text, codeVerifier: Text, redirectUri: Text): Params {
    [(GRANT_TYPE, AUTHORIZATION_CODE), (CLIENT_ID, clientId), (CLIENT_SECRET, clientSecret),
     (REDIRECT_URI, redirectUri), (CODE_VERIFIER, codeVerifier), (CODE, code)]
  }

  function RefreshForm(clientId: Text, clientSecret: Text, refreshToken: Text): Params {
    [(GRANT_TYPE, REFRESH_TOKEN), (CLIENT_ID, clientId), (CLIENT_SECRET, clientSecret), (REFRESH_TOKEN, refreshToken)]
  }

  // ---- appending in place ----

  /** `append_pair` on the query of a URL. */
  function AppendPair(query: Text, pair: Pair): Text {
    (if query == [] then [] else query + "&") + SerializePair(pair)
  }

  lemma {:induction false} AppendPairSerializes(pairs: Params, pair: Pair)
    ensures AppendPair(Serialize(pairs), pair) == Serialize(pairs + [pair])
  {
    if pairs == [] {
      assert pairs + [pair] == [pair];
    } else {
      assert (pairs + [pair])[1..] == pairs[1..] + [pair];
      if |pairs| > 1 {
        AppendPairSerializes(pairs[1..], pair);
      } else {
        assert pairs[1..] + [pair] == [pair];
      }
    }
  }

  /** `append_pair`, once for each pair. */
  method AppendPairs(pairs: Params) returns (query: Text)
    ensures query == Serialize(pairs)
  {
    query := [];
    for i := 0 to |pairs|
      invariant query == Serialize(pairs[..i])
    {
      AppendPairSerializes(pairs[..i], pairs[i]);
      assert pairs[..i] + [pairs[i]] == pairs[..i + 1];
      query := AppendPair(query, pairs[i]);
    }
    assert pairs[..|pairs|] == pairs;
  }

  function UrlWith(endpoint: Text, pairs: Params): Text {
    endpoint + "?" + Serialize(pairs)
  }

  /** A URL without a query or a fragment of its own. */
  predicate IsEndpoint(endpoint: Text) {
    '?' !in endpoint && '#' !in endpoint
  }

  /** The pairs are the query of the URL, and all that follows the endpoint. */
  predicate CarriesQuery(url: Text, endpoint: Text, pairs: Params) {
    && '#' !in url
    && match SplitOnce(url, '?')
       case Some((before, query)) => before == endpoint && Parse(query) == pairs
       case None => false
  }

  lemma NoFragmentAdded(pairs: Params)
    ensures '#' !in Serialize(pairs)
  {
    SerializeAlphabet(pairs);
  }

  lemma EndpointAndQuery(url: Text, endpoint: Text, query: Text)
    requires IsEndpoint(endpoint) && '#' !in query && url == endpoint + ['?'] + query
    ensures '#' !in url && SplitOnce(url, '?') == Some((endpoint, query))
  {
    SplitOnceAppend(endpoint, '?', query);
  }

  lemma UrlCarriesQuery(endpoint: Text, pairs: Params)
    requires IsEndpoint(endpoint)
    ensures CarriesQuery(UrlWith(endpoint, pairs), endpoint, pairs)
  {
    NoFragmentAdded(pairs);
    EndpointAndQuery(UrlWith(endpoint, pairs), endpoint, Serialize(pairs));
    ParseSerialized(pairs);
  }

  method AppendToUrl(endpoint: Text, pairs: Params) returns (url: Text)
    ensures url == UrlWith(endpoint, pairs)
    ensures IsEndpoint(endpoint) ==> CarriesQuery(url, endpoint, pairs)
  {
    if IsEndpoint(endpoint) {
      UrlCarriesQuery(endpoint, pairs);
    }
    var query := AppendPairs(pairs);
    url := endpoint + "?" + query;
  }

  /** `authorize_url`: the query of the URL is the six parameters, as they were passed. */
  method AuthorizeUrl(endpoint: Text, clientId: Text, redirectUri: Text, codeChallenge: Text, state: Text)
    returns (url: Text)
    ensures url == UrlWith(endpoint, AuthorizeParams(clientId, redirectUri, codeChallenge, state))
    ensures IsEndpoint(endpoint) ==>
              CarriesQuery(url, endpoint,
                           [("client_id", clientId), ("redirect_uri", redirectUri), ("response_type", "code"),
                            ("code_challenge", codeChallenge), ("code_challenge_method", "S256"), ("state", state)])
  {
    url := AppendToUrl(endpoint, AuthorizeParams(clientId, redirectUri, codeChallenge, state));
  }

  // ---- every parameter is sent once ----

  predicate SentOnce(params: Params) {
    forall i, j | 0 <= i < j < |params| :: params[i].0 != params[j].0
  }

  lemma {:induction false} AbsentOccurrences(params: Params, name: Text)
    requires forall i | 0 <= i < |params| :: params[i].0 != name
    ensures Occurrences(params, name) == []
  {
    if params != [] {
      AbsentOccurrences(params[1..], name);
    }
  }

  lemma {:induction false} OccurrencesOnce(params: Params, k: nat)
    requires SentOnce(params) && k < |params|
    ensures Occurrences(params, params[k].0) == [params[k].1]
  {
    var rest := params[1..];
    assert forall i | 0 <= i < |rest| :: rest[i] == params[i + 1];
    if k == 0 {
      AbsentOccurrences(rest, params[0].0);
    } else {
      OccurrencesOnce(rest, k - 1);
    }
  }

  lemma {:induction false} AtMostOnce(params: Params, name: Text)
    ensures SentOnce(params) ==> |Occurrences(params, name)| <= 1
  {
    if SentOnce(params) {
      if k :| 0 <= k < |params| && params[k].0 == name {
        OccurrencesOnce(params, k);
      } else {
        AbsentOccurrences(params, name);
      }
    }
  }

  lemma AuthorizeNames(clientId: Text, redirectUri: Text, codeChallenge: Text, state: Text)
    ensures SentOnce(AuthorizeParams(clientId, redirectUri, codeChallenge, state))
  {
  }

  lemma ExchangeNames(clientId: Text, clientSecret: Text, code: Text, codeVerifier: Text, redirectUri: Text)
    ensures SentOnce(ExchangeForm(clientId, clientSecret, code, codeVerifier, redirectUri))
  {
  }

  lemma RefreshNames(clientId: Text, clientSecret: Text, refreshToken: Text)
    ensures SentOnce(RefreshForm(clientId, clientSecret, refreshToken))
  {
  }
}
