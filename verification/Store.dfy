/** The authorization store as the server keeps it: maps changed in place, one method a critical
    section. Each method is proved to move the abstract state as `StoreModel` says. */
module Store {
  import opened Wrappers
  import opened Bytes
  import opened Time
  import opened StoreModel
  import Pkce
  import StoreInvariant

  /** The candidates the random source yields, in order. */
  type Draws = seq<Credential>

  /** A candidate that was never issued turns up. */
  predicate Supplies(issued: set<Credential>, draws: Draws) {
    exists i | 0 <= i < |draws| :: draws[i] !in issued
  }

  /** Where the first new candidate is. */
  function FirstNew(issued: set<Credential>, draws: Draws): (i: nat)
    requires Supplies(issued, draws)
    ensures i < |draws| && draws[i] !in issued
    ensures forall j | 0 <= j < i :: draws[j] in issued
  {
    if draws[0] !in issued then 0
    else
      var i :| 0 <= i < |draws| && draws[i] !in issued;
      assert draws[1..][i - 1] == draws[i];
      1 + FirstNew(issued, draws[1..])
  }

  /** Two new candidates, the second also different from the first. */
  predicate SuppliesTwo(issued: set<Credential>, draws: Draws) {
    && Supplies(issued, draws)
    && var i := FirstNew(issued, draws);
       Supplies(issued + {draws[i]}, draws[i + 1..])
  }

  function FreshAccess(issued: set<Credential>, draws: Draws): Credential
    requires Supplies(issued, draws)
  {
    draws[FirstNew(issued, draws)]
  }

  function FreshRefresh(issued: set<Credential>, draws: Draws): Credential
    requires SuppliesTwo(issued, draws)
  {
    var i := FirstNew(issued, draws);
    FreshAccess(issued + {draws[i]}, draws[i + 1..])
  }

  /** Distinct candidates cannot all have been issued: one more than there are issued credentials
      always holds a new one, at that position or before. */
  lemma {:induction false} DistinctDrawsSuffice(issued: set<Credential>, draws: Draws)
    requires Distinct(draws) && |draws| > |issued|
    ensures Supplies(issued, draws) && FirstNew(issued, draws) <= |issued|
    decreases |issued|
  {
    if draws[0] in issued {
      var rest := draws[1..];
      DistinctDrawsSuffice(issued - {draws[0]}, rest);
      var k := FirstNew(issued - {draws[0]}, rest);
      assert draws[k + 1] == rest[k] && draws[k + 1] !in issued;
    }
  }

  lemma InsertedCredentials(s: StoreState, kind: TokenKind, clientId: Text, family: Option<nat>, now: Duration,
                            token: Credential)
    ensures Credentials(StoreModel.InsertAccessToken(s, kind, clientId, family, now, token)) == Credentials(s) + {token}
  {
  }

  class Store {
    const accessTokenLifetime: Duration
    const authorizationCodeLifetime: Duration
    var codes: map<Credential, AuthCode>
    var accessTokens: map<Credential, AccessToken>
    var refreshTokens: map<Credential, RefreshToken>
    var revokedFamilies: set<nat>
    var nextFamily: nat

    function State(): StoreState
      reads this
    {
      StoreState(accessTokenLifetime, authorizationCodeLifetime, codes, accessTokens, refreshTokens,
                 revokedFamilies, nextFamily)
    }

    ghost predicate Valid()
      reads this
    {
      StoreInvariant.Valid(State())
    }

    constructor (accessTokenLifetime: Duration, authorizationCodeLifetime: Duration)
      ensures State() == NewStore(accessTokenLifetime, authorizationCodeLifetime)
      ensures Valid()
    {
      this.accessTokenLifetime := accessTokenLifetime;
      this.authorizationCodeLifetime := authorizationCodeLifetime;
      codes, accessTokens, refreshTokens := map[], map[], map[];
      revokedFamilies := {};
      nextFamily := 0;
      new;
      StoreInvariant.NewStoreValid(accessTokenLifetime, authorizationCodeLifetime);
    }

    /** Draws until a candidate is new. `used` counts the draws. */
    method FreshCredential(draws: Draws) returns (candidate: Credential, used: nat)
      requires Supplies(Credentials(State()), draws)
      ensures used == FirstNew(Credentials(State()), draws) + 1
      ensures candidate == FreshAccess(Credentials(State()), draws)
      ensures candidate !in Credentials(State())
      ensures Distinct(draws) && |draws| > |Credentials(State())| ==> used <= |Credentials(State())| + 1
    {
      used := 0;
      ghost var first := FirstNew(Credentials(State()), draws);
      while true
        invariant 0 <= used <= first
        invariant forall j | 0 <= j < used :: draws[j] in Credentials(State())
        decreases first - used
      {
        candidate := draws[used];
        used := used + 1;
        if candidate !in codes && candidate !in accessTokens && candidate !in refreshTokens {
          break;
        }
      }
      if Distinct(draws) && |draws| > |Credentials(State())| {
        DistinctDrawsSuffice(Credentials(State()), draws);
      }
    }

    method IssueCode(clientId: Text, redirectUri: Text, codeChallenge: Text, now: Duration, draws: Draws)
      returns (code: Credential)
      requires Valid() && Supplies(Credentials(State()), draws)
      modifies this
      ensures Valid()
      ensures code == FreshAccess(old(Credentials(State())), draws)
      ensures State() == StoreModel.IssueCode(old(State()), clientId, redirectUri, codeChallenge, now, code)
    {
      ghost var before := State();
      var family := nextFamily;
      nextFamily := nextFamily + 1;
      assert Credentials(State()) == Credentials(before);
      var used;
      code, used := FreshCredential(draws);
      codes := codes[code := AuthCode(clientId, redirectUri, codeChallenge, now, family, false)];
      assert State() == StoreModel.IssueCode(before, clientId, redirectUri, codeChallenge, now, code);
      StoreInvariant.IssueCodeValid(before, clientId, redirectUri, codeChallenge, now, code);
    }

    method InsertAccessToken(kind: TokenKind, clientId: Text, family: Option<nat>, now: Duration, draws: Draws)
      returns (token: Credential, used: nat)
      requires Supplies(Credentials(State()), draws)
      modifies this`accessTokens
      ensures token == FreshAccess(old(Credentials(State())), draws)
      ensures used == FirstNew(old(Credentials(State())), draws) + 1
      ensures State() == StoreModel.InsertAccessToken(old(State()), kind, clientId, family, now, token)
    {
      token, used := FreshCredential(draws);
      var expiresAt := SaturatingAdd(now, accessTokenLifetime);
      accessTokens := accessTokens[token := AccessToken(kind, clientId, expiresAt, family)];
    }

    method IssueUserTokens(clientId: Text, family: nat, now: Duration, draws: Draws) returns (issued: Issued)
      requires SuppliesTwo(Credentials(State()), draws)
      modifies this`accessTokens, this`refreshTokens
      ensures var issuedBefore := old(Credentials(State()));
              var access, refresh := FreshAccess(issuedBefore, draws), FreshRefresh(issuedBefore, draws);
              && issued == Issued(access, Some(refresh))
              && State() == StoreModel.IssueUserTokens(old(State()), clientId, family, now, access, refresh)
    {
      ghost var before, credentials := State(), Credentials(State());
      var accessToken, used := InsertAccessToken(User, clientId, Some(family), now, draws);
      ghost var rest := draws[used..];
      InsertedCredentials(before, User, clientId, Some(family), now, accessToken);
      assert FreshRefresh(credentials, draws) == FreshAccess(credentials + {accessToken}, rest);
      var refreshToken, _ := FreshCredential(draws[used..]);
      refreshTokens := refreshTokens[refreshToken := RefreshToken(clientId, family, false)];
      issued := Issued(accessToken, Some(refreshToken));
    }

    method RedeemCode(request: CodeRedemption, now: Duration, draws: Draws)
      returns (r: Result<Issued, InvalidGrant>)
      requires Valid() && SuppliesTwo(Credentials(State()), draws)
      modifies this
      ensures Valid()
      ensures var issued := old(Credentials(State()));
              (State(), r) ==
              StoreModel.RedeemCode(old(State()), request, now, FreshAccess(issued, draws), FreshRefresh(issued, draws))
    {
      ghost var before := State();
      if request.code !in codes {
        return Err(InvalidGrant);
      }
      var code := codes[request.code];
      if code.clientId != request.clientId {
        return Err(InvalidGrant);
      }
      if code.redeemed {
        revokedFamilies := revokedFamilies + {code.family};
        StoreInvariant.RevokeValid(before, request.code);
        return Err(InvalidGrant);
      }
      if now >= SaturatingAdd(code.issuedAt, authorizationCodeLifetime) {
        return Err(InvalidGrant);
      }
      if code.redirectUri != request.redirectUri
         || !Pkce.VerifyS256(request.codeVerifier, code.codeChallenge) {
        return Err(InvalidGrant);
      }
      codes := codes[request.code := code.(redeemed := true)];
      assert Credentials(State()) == Credentials(before);
      var issued := IssueUserTokens(request.clientId, code.family, now, draws);
      StoreInvariant.RedeemCodeValid(before, request, now, issued.accessToken, issued.refreshToken.value);
      return Ok(issued);
    }

    method Refresh(clientId: Text, refreshToken: Credential, now: Duration, draws: Draws)
      returns (r: Result<Issued, InvalidGrant>)
      requires Valid() && SuppliesTwo(Credentials(State()), draws)
      modifies this
      ensures Valid()
      ensures var issued := old(Credentials(State()));
              var access, refresh := FreshAccess(issued, draws), FreshRefresh(issued, draws);
              (State(), r) == StoreModel.Refresh(old(State()), clientId, refreshToken, now, access, refresh)
    {
      ghost var before := State();
      if refreshToken !in refreshTokens {
        return Err(InvalidGrant);
      }
      var entry := refreshTokens[refreshToken];
      if entry.clientId != clientId || entry.spent || entry.family in revokedFamilies {
        return Err(InvalidGrant);
      }
      refreshTokens := refreshTokens[refreshToken := entry.(spent := true)];
      assert Credentials(State()) == Credentials(before);
      var issued := IssueUserTokens(clientId, entry.family, now, draws);
      StoreInvariant.RefreshValid(before, clientId, refreshToken, now, issued.accessToken, issued.refreshToken.value);
      return Ok(issued);
    }

    method IssueAppToken(clientId: Text, now: Duration, draws: Draws) returns (issued: Issued)
      requires Valid() && Supplies(Credentials(State()), draws)
      modifies this
      ensures Valid()
      ensures var access := FreshAccess(old(Credentials(State())), draws);
              (State(), issued) == StoreModel.IssueAppToken(old(State()), clientId, now, access)
    {
      ghost var before := State();
      var token, _ := InsertAccessToken(App, clientId, None, now, draws);
      StoreInvariant.IssueAppTokenValid(before, clientId, now, token);
      issued := Issued(token, None);
    }

    /** A token is reported exactly while it is known, not revoked and not expired, and then always
        has time left: what remains until its expiry. */
    method AccessTokenInfo(token: Credential, now: Duration) returns (info: Option<TokenInfo>)
      ensures info.Some? <==>
              && token in accessTokens
              && (accessTokens[token].family.Some? ==> accessTokens[token].family.value !in revokedFamilies)
              && now < accessTokens[token].expiresAt
      ensures info.Some? ==>
              && 0 < info.value.remaining == accessTokens[token].expiresAt - now
              && info.value.kind == accessTokens[token].kind
              && info.value.clientId == accessTokens[token].clientId
      ensures info == StoreModel.AccessTokenInfo(State(), token, now)
    {
      if token !in accessTokens {
        return None;
      }
      var entry := accessTokens[token];
      if entry.family.Some? && entry.family.value in revokedFamilies {
        return None;
      }
      if entry.expiresAt < now {
        return None;
      }
      var remaining := entry.expiresAt - now;
      return if remaining == 0 then None else Some(TokenInfo(entry.kind, entry.clientId, remaining));
    }
  }
}
