/** What the authorization server remembers, as a value, and each store method as a function
    from one store to the next. The class in `Store` is proved against these functions. */
module StoreModel {
  import opened Wrappers
  import opened Bytes
  import opened Time
  import Pkce

  /** An opaque code, access token or refresh token, as presented or as drawn. */
  datatype Credential = Credential(text: Text)

  datatype TokenKind = User | App

  datatype TokenInfo = TokenInfo(kind: TokenKind, clientId: Text, remaining: Duration)

  datatype AuthCode = AuthCode(
    clientId: Text,
    redirectUri: Text,
    codeChallenge: Text,
    issuedAt: Duration,
    family: nat,
    redeemed: bool)

  datatype AccessToken = AccessToken(
    kind: TokenKind,
    clientId: Text,
    expiresAt: Duration,
    family: Option<nat>)

  datatype RefreshToken = RefreshToken(clientId: Text, family: nat, spent: bool)

  datatype Issued = Issued(accessToken: Credential, refreshToken: Option<Credential>)

  datatype InvalidGrant = InvalidGrant

  datatype CodeRedemption = CodeRedemption(
    clientId: Text,
    code: Credential,
    redirectUri: Text,
    codeVerifier: Text)

  datatype StoreState = StoreState(
    accessTokenLifetime: Duration,
    authorizationCodeLifetime: Duration,
    codes: map<Credential, AuthCode>,
    accessTokens: map<Credential, AccessToken>,
    refreshTokens: map<Credential, RefreshToken>,
    revokedFamilies: set<nat>,
    nextFamily: nat)

  function NewStore(accessTokenLifetime: Duration, authorizationCodeLifetime: Duration): StoreState {
    StoreState(accessTokenLifetime, authorizationCodeLifetime, map[], map[], map[], {}, 0)
  }

  /** Every credential issued so far. */
  function Credentials(s: StoreState): set<Credential> {
    s.codes.Keys + s.accessTokens.Keys + s.refreshTokens.Keys
  }

  function IssueCode(s: StoreState, clientId: Text, redirectUri: Text, codeChallenge: Text,
                     now: Duration, drawn: Credential): StoreState
  {
    var entry := AuthCode(clientId, redirectUri, codeChallenge, now, s.nextFamily, false);
    s.(nextFamily := s.nextFamily + 1, codes := s.codes[drawn := entry])
  }

  function InsertAccessToken(s: StoreState, kind: TokenKind, clientId: Text, family: Option<nat>,
                             now: Duration, drawn: Credential): StoreState
  {
    var entry := AccessToken(kind, clientId, SaturatingAdd(now, s.accessTokenLifetime), family);
    s.(accessTokens := s.accessTokens[drawn := entry])
  }

  function IssueUserTokens(s: StoreState, clientId: Text, family: nat, now: Duration,
                           freshAccess: Credential, freshRefresh: Credential): StoreState
  {
    var s1 := InsertAccessToken(s, User, clientId, Some(family), now, freshAccess);
    s1.(refreshTokens := s1.refreshTokens[freshRefresh := RefreshToken(clientId, family, false)])
  }

  /** Before its expiry, with the redirect URI it was issued for and a verifier that answers its
      challenge. */
  predicate RedeemableBy(lifetime: Duration, code: AuthCode, request: CodeRedemption, now: Duration) {
    && code.clientId == request.clientId
    && now < SaturatingAdd(code.issuedAt, lifetime)
    && code.redirectUri == request.redirectUri
    && Pkce.VerifyS256(request.codeVerifier, code.codeChallenge)
  }

  function RedeemCode(s: StoreState, request: CodeRedemption, now: Duration,
                      freshAccess: Credential, freshRefresh: Credential)
    : (StoreState, Result<Issued, InvalidGrant>)
  {
    if request.code !in s.codes then (s, Err(InvalidGrant))
    else
      var code := s.codes[request.code];
      if code.clientId != request.clientId then (s, Err(InvalidGrant))
      else if code.redeemed then
        (s.(revokedFamilies := s.revokedFamilies + {code.family}), Err(InvalidGrant))
      else if now >= SaturatingAdd(code.issuedAt, s.authorizationCodeLifetime) then
        (s, Err(InvalidGrant))
      else if code.redirectUri != request.redirectUri
              || !Pkce.VerifyS256(request.codeVerifier, code.codeChallenge) then
        (s, Err(InvalidGrant))
      else
        var s1 := s.(codes := s.codes[request.code := code.(redeemed := true)]);
        (IssueUserTokens(s1, request.clientId, code.family, now, freshAccess, freshRefresh),
         Ok(Issued(freshAccess, Some(freshRefresh))))
  }

  function Refresh(s: StoreState, clientId: Text, refreshToken: Credential, now: Duration,
                   freshAccess: Credential, freshRefresh: Credential)
    : (StoreState, Result<Issued, InvalidGrant>)
  {
    if refreshToken !in s.refreshTokens then (s, Err(InvalidGrant))
    else
      var entry := s.refreshTokens[refreshToken];
      if entry.clientId != clientId || entry.spent || entry.family in s.revokedFamilies then
        (s, Err(InvalidGrant))
      else
        var s1 := s.(refreshTokens := s.refreshTokens[refreshToken := entry.(spent := true)]);
        (IssueUserTokens(s1, clientId, entry.family, now, freshAccess, freshRefresh),
         Ok(Issued(freshAccess, Some(freshRefresh))))
  }

  function IssueAppToken(s: StoreState, clientId: Text, now: Duration, drawn: Credential)
    : (StoreState, Issued)
  {
    (InsertAccessToken(s, App, clientId, None, now, drawn), Issued(drawn, None))
  }

  function AccessTokenInfo(s: StoreState, token: Credential, now: Duration): Option<TokenInfo> {
    if token !in s.accessTokens then None
    else
      var entry := s.accessTokens[token];
      if entry.family.Some? && entry.family.value in s.revokedFamilies then None
      else if entry.expiresAt <= now then None
      else Some(TokenInfo(entry.kind, entry.clientId, entry.expiresAt - now))
  }

  // ---- the server as a state machine: one request, one atomic step ----

  /** The part of the server behind its lock that the store methods see. */
  datatype Server = Server(store: StoreState, now: Duration)

  /** One request, with the credentials its `fresh_credential` calls would return. */
  datatype Op =
    | IssueCodeOp(clientId: Text, redirectUri: Text, codeChallenge: Text, drawn: Credential)
    | RedeemOp(request: CodeRedemption, freshAccess: Credential, freshRefresh: Credential)
    | RefreshOp(clientId: Text, token: Credential, freshAccess: Credential, freshRefresh: Credential)
    | AppTokenOp(clientId: Text, drawn: Credential)
    | InfoOp(token: Credential)
    | AdvanceOp(delta: Duration)

  datatype Answer =
    | Code(code: Credential)
    | Grant(issued: Issued)
    | Refused
    | Info(info: Option<TokenInfo>)
    | Done

  function GrantAnswer(r: Result<Issued, InvalidGrant>): Answer {
    match r
    case Ok(issued) => Grant(issued)
    case Err(_) => Refused
  }

  function Step(w: Server, op: Op): (Server, Answer) {
    match op
    case IssueCodeOp(clientId, uri, challenge, drawn) =>
      (w.(store := IssueCode(w.store, clientId, uri, challenge, w.now, drawn)), Code(drawn))
    case RedeemOp(request, freshAccess, freshRefresh) =>
      var (s, r) := RedeemCode(w.store, request, w.now, freshAccess, freshRefresh);
      (w.(store := s), GrantAnswer(r))
    case RefreshOp(clientId, token, freshAccess, freshRefresh) =>
      var (s, r) := Refresh(w.store, clientId, token, w.now, freshAccess, freshRefresh);
      (w.(store := s), GrantAnswer(r))
    case AppTokenOp(clientId, drawn) =>
      var (s, issued) := IssueAppToken(w.store, clientId, w.now, drawn);
      (w.(store := s), Grant(issued))
    case InfoOp(token) =>
      (w, Info(AccessTokenInfo(w.store, token, w.now)))
    case AdvanceOp(delta) =>
      (w.(now := SaturatingAdd(w.now, delta)), Done)
  }

  /** The credentials an answer hands out. */
  function Handed(answer: Answer): seq<Credential> {
    match answer
    case Code(code) => [code]
    case Grant(issued) =>
      [issued.accessToken] + (if issued.refreshToken.Some? then [issued.refreshToken.value] else [])
    case _ => []
  }

  predicate Distinct<T(==)>(s: seq<T>) {
    forall i, j | 0 <= i < j < |s| :: s[i] != s[j]
  }

  /** What `fresh_credential` guarantees of the step: whatever it hands out was never issued. */
  predicate Drawn(w: Server, op: Op) {
    var handed := Handed(Step(w, op).1);
    Distinct(handed) && forall c | c in handed :: c !in Credentials(w.store)
  }

  function After(w: Server, ops: seq<Op>): Server
    decreases |ops|
  {
    if ops == [] then w else After(Step(w, ops[0]).0, ops[1..])
  }

  function Answers(w: Server, ops: seq<Op>): (answers: seq<Answer>)
    ensures |answers| == |ops|
    decreases |ops|
  {
    if ops == [] then [] else [Step(w, ops[0]).1] + Answers(Step(w, ops[0]).0, ops[1..])
  }

  /** A run in which every credential handed out was drawn fresh. */
  predicate ValidRun(w: Server, ops: seq<Op>)
    decreases |ops|
  {
    ops == [] || (Drawn(w, ops[0]) && ValidRun(Step(w, ops[0]).0, ops[1..]))
  }

  function Boot(accessTokenLifetime: Duration, authorizationCodeLifetime: Duration): Server {
    Server(NewStore(accessTokenLifetime, authorizationCodeLifetime), 0)
  }

  lemma RunCons(w: Server, op: Op, rest: seq<Op>)
    ensures After(w, [op] + rest) == After(Step(w, op).0, rest)
    ensures Answers(w, [op] + rest) == [Step(w, op).1] + Answers(Step(w, op).0, rest)
    ensures ValidRun(w, [op] + rest) <==> Drawn(w, op) && ValidRun(Step(w, op).0, rest)
  {
    assert ([op] + rest)[1..] == rest;
  }

  lemma {:induction false} RunConcat(w: Server, a: seq<Op>, b: seq<Op>)
    ensures After(w, a + b) == After(After(w, a), b)
    ensures Answers(w, a + b) == Answers(w, a) + Answers(After(w, a), b)
    ensures ValidRun(w, a + b) <==> ValidRun(w, a) && ValidRun(After(w, a), b)
    decreases |a|
  {
    if a == [] {
      assert a + b == b;
    } else {
      assert (a + b)[1..] == a[1..] + b;
      RunConcat(Step(w, a[0]).0, a[1..], b);
    }
  }
}
