/** What every reachable store satisfies: typed and disjoint credentials, one family a code,
    conservation between redeemed codes and unspent refresh tokens. */
module StoreInvariant {
  import opened Wrappers
  import opened Bytes
  import opened Time
  import opened StoreModel

  ghost predicate DisjointKeys(s: StoreState) {
    && s.codes.Keys !! s.accessTokens.Keys
    && s.codes.Keys !! s.refreshTokens.Keys
    && s.accessTokens.Keys !! s.refreshTokens.Keys
  }

  /** Families are numbered in order of issue, one for each code. */
  ghost predicate FamiliesOfCodes(s: StoreState) {
    && (forall c | c in s.codes :: s.codes[c].family < s.nextFamily)
    && (forall c, d | c in s.codes && d in s.codes && s.codes[c].family == s.codes[d].family :: c == d)
  }

  ghost predicate RedeemedRoot(s: StoreState, c: Credential, family: nat) {
    c in s.codes && s.codes[c].family == family && s.codes[c].redeemed
  }

  ghost predicate IsRedeemed(s: StoreState, family: nat) {
    exists c :: RedeemedRoot(s, c, family)
  }

  /** The family's code was redeemed, by this client. */
  ghost predicate HasRoot(s: StoreState, family: nat, clientId: Text) {
    exists c :: RedeemedRoot(s, c, family) && s.codes[c].clientId == clientId
  }

  ghost predicate TypedAccess(s: StoreState, entry: AccessToken) {
    && (entry.kind.App? <==> entry.family.None?)
    && (entry.family.Some? ==> HasRoot(s, entry.family.value, entry.clientId))
  }

  /** Tokens belong to a redeemed code and its client; only such families are revoked. */
  ghost predicate Typed(s: StoreState) {
    && DisjointKeys(s)
    && FamiliesOfCodes(s)
    && (forall t | t in s.accessTokens :: TypedAccess(s, s.accessTokens[t]))
    && (forall t | t in s.refreshTokens :: HasRoot(s, s.refreshTokens[t].family, s.refreshTokens[t].clientId))
    && (forall f | f in s.revokedFamilies :: IsRedeemed(s, f))
  }

  ghost function AccessOf(s: StoreState, family: nat): set<Credential> {
    set t | t in s.accessTokens && s.accessTokens[t].family == Some(family)
  }

  ghost function RefreshOf(s: StoreState, family: nat): set<Credential> {
    set t | t in s.refreshTokens && s.refreshTokens[t].family == family
  }

  ghost function UnspentOf(s: StoreState, family: nat): set<Credential> {
    set t | t in s.refreshTokens && s.refreshTokens[t].family == family && !s.refreshTokens[t].spent
  }

  /** A redeemed family has exactly one unspent refresh token, an unredeemed one none; and a family
      has as many access tokens as refresh tokens. */
  ghost predicate FamilyConserved(s: StoreState, family: nat) {
    && |AccessOf(s, family)| == |RefreshOf(s, family)|
    && |UnspentOf(s, family)| == (if IsRedeemed(s, family) then 1 else 0)
  }

  ghost function RedeemedCodes(s: StoreState): set<Credential> {
    set c | c in s.codes && s.codes[c].redeemed
  }

  ghost function UnspentTokens(s: StoreState): set<Credential> {
    set t | t in s.refreshTokens && !s.refreshTokens[t].spent
  }

  ghost predicate Conserved(s: StoreState) {
    && (forall f: nat :: FamilyConserved(s, f))
    && |RedeemedCodes(s)| == |UnspentTokens(s)|
  }

  ghost predicate Valid(s: StoreState) {
    Typed(s) && Conserved(s)
  }

  lemma NewStoreValid(accessTokenLifetime: Duration, authorizationCodeLifetime: Duration)
    ensures Valid(NewStore(accessTokenLifetime, authorizationCodeLifetime))
  {
  }

  // ---- what carries over from one store to the next ----

  /** Codes are only added or redeemed, never altered otherwise. */
  ghost predicate CodesGrow(s: StoreState, s': StoreState) {
    forall c | c in s.codes ::
      && c in s'.codes
      && s'.codes[c].family == s.codes[c].family
      && s'.codes[c].clientId == s.codes[c].clientId
      && (s.codes[c].redeemed ==> s'.codes[c].redeemed)
  }

  lemma RootCarriesOver(s: StoreState, s': StoreState, f: nat, clientId: Text)
    requires CodesGrow(s, s')
    ensures HasRoot(s, f, clientId) ==> HasRoot(s', f, clientId)
    ensures IsRedeemed(s, f) ==> IsRedeemed(s', f)
  {
    if c :| RedeemedRoot(s, c, f) && s.codes[c].clientId == clientId {
      assert RedeemedRoot(s', c, f);
    }
    if c :| RedeemedRoot(s, c, f) {
      assert RedeemedRoot(s', c, f);
    }
  }

  /** Typing is kept when every entry is an old one (a refresh token may get spent) or is typed. */
  lemma TypedCarriesOver(s: StoreState, s': StoreState)
    requires Typed(s) && CodesGrow(s, s') && DisjointKeys(s') && FamiliesOfCodes(s')
    requires forall t | t in s'.accessTokens ::
               (t in s.accessTokens && s'.accessTokens[t] == s.accessTokens[t]) || TypedAccess(s', s'.accessTokens[t])
    requires forall t | t in s'.refreshTokens ::
               || (t in s.refreshTokens
                   && s'.refreshTokens[t].(spent := false) == s.refreshTokens[t].(spent := false))
               || HasRoot(s', s'.refreshTokens[t].family, s'.refreshTokens[t].clientId)
    requires forall f | f in s'.revokedFamilies :: f in s.revokedFamilies || IsRedeemed(s', f)
    ensures Typed(s')
  {
    forall t | t in s'.accessTokens ensures TypedAccess(s', s'.accessTokens[t]) {
      var entry := s'.accessTokens[t];
      if t in s.accessTokens && entry == s.accessTokens[t] {
        assert TypedAccess(s, entry);
        if entry.family.Some? {
          RootCarriesOver(s, s', entry.family.value, entry.clientId);
        }
      }
    }
    forall t | t in s'.refreshTokens
      ensures HasRoot(s', s'.refreshTokens[t].family, s'.refreshTokens[t].clientId)
    {
      RootCarriesOver(s, s', s'.refreshTokens[t].family, s'.refreshTokens[t].clientId);
    }
    forall f | f in s'.revokedFamilies ensures IsRedeemed(s', f) {
      RootCarriesOver(s, s', f, []);
    }
  }

  /** Conservation is kept by steps that touch no redeemed code and no user token. */
  lemma ConservedCarriesOver(s: StoreState, s': StoreState)
    requires Conserved(s)
    requires s'.refreshTokens == s.refreshTokens
    requires forall f: nat :: AccessOf(s', f) == AccessOf(s, f)
    requires forall c, f :: RedeemedRoot(s', c, f) <==> RedeemedRoot(s, c, f)
    requires RedeemedCodes(s') == RedeemedCodes(s)
    ensures Conserved(s')
  {
    forall f: nat ensures FamilyConserved(s', f) {
      assert FamilyConserved(s, f);
      assert RefreshOf(s', f) == RefreshOf(s, f) && UnspentOf(s', f) == UnspentOf(s, f);
      assert IsRedeemed(s', f) <==> IsRedeemed(s, f);
    }
    assert UnspentTokens(s') == UnspentTokens(s);
  }

  // ---- issuing codes and app tokens, and revoking ----

  lemma IssueCodeFrame(s: StoreState, clientId: Text, uri: Text, challenge: Text, now: Duration, drawn: Credential)
    requires FamiliesOfCodes(s) && DisjointKeys(s) && drawn !in Credentials(s)
    ensures var s' := IssueCode(s, clientId, uri, challenge, now, drawn);
            && FamiliesOfCodes(s') && DisjointKeys(s') && CodesGrow(s, s')
            && RedeemedCodes(s') == RedeemedCodes(s)
            && (forall c, f :: RedeemedRoot(s', c, f) <==> RedeemedRoot(s, c, f))
  {
  }

  lemma IssueCodeValid(s: StoreState, clientId: Text, uri: Text, challenge: Text, now: Duration, drawn: Credential)
    requires Valid(s) && drawn !in Credentials(s)
    ensures Valid(IssueCode(s, clientId, uri, challenge, now, drawn))
  {
    var s' := IssueCode(s, clientId, uri, challenge, now, drawn);
    IssueCodeFrame(s, clientId, uri, challenge, now, drawn);
    TypedCarriesOver(s, s');
    assert forall f: nat :: AccessOf(s', f) == AccessOf(s, f);
    ConservedCarriesOver(s, s');
  }

  lemma IssueAppTokenValid(s: StoreState, clientId: Text, now: Duration, drawn: Credential)
    requires Valid(s) && drawn !in Credentials(s)
    ensures Valid(IssueAppToken(s, clientId, now, drawn).0)
  {
    var s' := IssueAppToken(s, clientId, now, drawn).0;
    TypedCarriesOver(s, s');
    assert forall f: nat :: AccessOf(s', f) == AccessOf(s, f);
    assert RedeemedCodes(s') == RedeemedCodes(s);
    ConservedCarriesOver(s, s');
  }

  lemma RevokeValid(s: StoreState, c: Credential)
    requires Valid(s) && c in s.codes && s.codes[c].redeemed
    ensures Valid(s.(revokedFamilies := s.revokedFamilies + {s.codes[c].family}))
  {
    var s' := s.(revokedFamilies := s.revokedFamilies + {s.codes[c].family});
    assert RedeemedRoot(s', c, s.codes[c].family);
    TypedCarriesOver(s, s');
    assert forall f: nat :: AccessOf(s', f) == AccessOf(s, f);
    assert RedeemedCodes(s') == RedeemedCodes(s);
    ConservedCarriesOver(s, s');
  }

  // ---- redeeming ----

  /** No token exists in a family whose code is not redeemed. */
  lemma UnredeemedHasNone(s: StoreState, c: Credential)
    requires Typed(s) && c in s.codes && !s.codes[c].redeemed
    ensures var f := s.codes[c].family;
            && AccessOf(s, f) == {} && RefreshOf(s, f) == {} && UnspentOf(s, f) == {}
            && f !in s.revokedFamilies && !IsRedeemed(s, f)
  {
  }

  function Redeemed(s: StoreState, c: Credential, now: Duration, access: Credential, refresh: Credential): StoreState
    requires c in s.codes
  {
    var s1 := s.(codes := s.codes[c := s.codes[c].(redeemed := true)]);
    IssueUserTokens(s1, s.codes[c].clientId, s.codes[c].family, now, access, refresh)
  }

  lemma RedeemedTyped(s: StoreState, c: Credential, now: Duration, access: Credential, refresh: Credential)
    requires Typed(s) && c in s.codes
    requires access !in Credentials(s) && refresh !in Credentials(s) && access != refresh
    ensures Typed(Redeemed(s, c, now, access, refresh))
  {
    var s' := Redeemed(s, c, now, access, refresh);
    assert RedeemedRoot(s', c, s.codes[c].family);
    TypedCarriesOver(s, s');
  }

  /** The size of a set that gains one element and loses at most one. */
  ghost predicate Changed<T>(before: set<T>, after: set<T>, gained: set<T>, lost: set<T>) {
    after == before - lost + gained && gained !! before && lost <= before
  }

  lemma SizeAfter<T>(before: set<T>, after: set<T>, gained: set<T>, lost: set<T>)
    requires Changed(before, after, gained, lost)
    ensures |after| == |before| - |lost| + |gained|
  {
  }

  /** The tokens a grant adds to a family. */
  ghost function Granted(here: bool, token: Credential): set<Credential> {
    if here then {token} else {}
  }

  lemma RedeemedSets(s: StoreState, c: Credential, now: Duration, access: Credential, refresh: Credential, f: nat)
    requires c in s.codes && access !in s.accessTokens && refresh !in s.refreshTokens
    ensures var s', here := Redeemed(s, c, now, access, refresh), f == s.codes[c].family;
            && Changed(AccessOf(s, f), AccessOf(s', f), Granted(here, access), {})
            && Changed(RefreshOf(s, f), RefreshOf(s', f), Granted(here, refresh), {})
            && Changed(UnspentOf(s, f), UnspentOf(s', f), Granted(here, refresh), {})
            && (IsRedeemed(s', f) <==> here || IsRedeemed(s, f))
  {
    var s' := Redeemed(s, c, now, access, refresh);
    assert RedeemedRoot(s', c, s.codes[c].family);
    assert forall d | d != c :: RedeemedRoot(s', d, f) <==> RedeemedRoot(s, d, f);
  }

  lemma RedeemedFamily(s: StoreState, c: Credential, now: Duration, access: Credential, refresh: Credential, f: nat)
    requires FamilyConserved(s, f) && c in s.codes
    requires access !in s.accessTokens && refresh !in s.refreshTokens
    requires f == s.codes[c].family ==> UnspentOf(s, f) == {}
    ensures FamilyConserved(Redeemed(s, c, now, access, refresh), f)
  {
    var s', here := Redeemed(s, c, now, access, refresh), f == s.codes[c].family;
    RedeemedSets(s, c, now, access, refresh, f);
    SizeAfter(AccessOf(s, f), AccessOf(s', f), Granted(here, access), {});
    SizeAfter(RefreshOf(s, f), RefreshOf(s', f), Granted(here, refresh), {});
    SizeAfter(UnspentOf(s, f), UnspentOf(s', f), Granted(here, refresh), {});
  }

  lemma RedeemedTotals(s: StoreState, c: Credential, now: Duration, access: Credential, refresh: Credential)
    requires c in s.codes && !s.codes[c].redeemed && refresh !in s.refreshTokens
    ensures var s' := Redeemed(s, c, now, access, refresh);
            && |RedeemedCodes(s')| == |RedeemedCodes(s)| + 1
            && |UnspentTokens(s')| == |UnspentTokens(s)| + 1
  {
    MoreUnspent(s, c, now, access, refresh);
    var s' := Redeemed(s, c, now, access, refresh);
    SizeAfter(RedeemedCodes(s), RedeemedCodes(s'), {c}, {});
    SizeAfter(UnspentTokens(s), UnspentTokens(s'), {refresh}, {});
  }

  lemma MoreUnspent(s: StoreState, c: Credential, now: Duration, access: Credential, refresh: Credential)
    requires c in s.codes && refresh !in s.refreshTokens
    ensures Changed(UnspentTokens(s), UnspentTokens(Redeemed(s, c, now, access, refresh)), {refresh}, {})
  {
  }

  lemma RedeemedConserved(s: StoreState, c: Credential, now: Duration, access: Credential, refresh: Credential)
    requires Conserved(s) && c in s.codes && !s.codes[c].redeemed
    requires access !in s.accessTokens && refresh !in s.refreshTokens
    requires UnspentOf(s, s.codes[c].family) == {}
    ensures Conserved(Redeemed(s, c, now, access, refresh))
  {
    forall f: nat ensures FamilyConserved(Redeemed(s, c, now, access, refresh), f) {
      RedeemedFamily(s, c, now, access, refresh, f);
    }
    RedeemedTotals(s, c, now, access, refresh);
  }

  lemma RedeemCodeValid(s: StoreState, request: CodeRedemption, now: Duration, access: Credential, refresh: Credential)
    requires Valid(s)
    requires RedeemCode(s, request, now, access, refresh).1.Ok? ==>
               access !in Credentials(s) && refresh !in Credentials(s) && access != refresh
    ensures Valid(RedeemCode(s, request, now, access, refresh).0)
  {
    var (s', r) := RedeemCode(s, request, now, access, refresh);
    var c := request.code;
    if r.Ok? {
      assert s' == Redeemed(s, c, now, access, refresh);
      RedeemedTyped(s, c, now, access, refresh);
      UnredeemedHasNone(s, c);
      RedeemedConserved(s, c, now, access, refresh);
    } else if s' != s {
      RevokeValid(s, c);
    }
  }

  // ---- refreshing ----

  function Rotated(s: StoreState, token: Credential, now: Duration, access: Credential, refresh: Credential): StoreState
    requires token in s.refreshTokens
  {
    var entry := s.refreshTokens[token];
    var s1 := s.(refreshTokens := s.refreshTokens[token := entry.(spent := true)]);
    IssueUserTokens(s1, entry.clientId, entry.family, now, access, refresh)
  }

  lemma RotatedTyped(s: StoreState, token: Credential, now: Duration, access: Credential, refresh: Credential)
    requires Typed(s) && token in s.refreshTokens
    requires access !in Credentials(s) && refresh !in Credentials(s) && access != refresh
    ensures Typed(Rotated(s, token, now, access, refresh))
  {
    var entry := s.refreshTokens[token];
    var s' := Rotated(s, token, now, access, refresh);
    RootCarriesOver(s, s', entry.family, entry.clientId);
    TypedCarriesOver(s, s');
  }

  lemma RotatedSets(s: StoreState, token: Credential, now: Duration, access: Credential, refresh: Credential, f: nat)
    requires token in s.refreshTokens && !s.refreshTokens[token].spent
    requires access !in s.accessTokens && refresh !in s.refreshTokens
    ensures var s', here := Rotated(s, token, now, access, refresh), f == s.refreshTokens[token].family;
            && Changed(AccessOf(s, f), AccessOf(s', f), Granted(here, access), {})
            && Changed(RefreshOf(s, f), RefreshOf(s', f), Granted(here, refresh), {})
            && Changed(UnspentOf(s, f), UnspentOf(s', f), Granted(here, refresh), Granted(here, token))
            && (IsRedeemed(s', f) <==> IsRedeemed(s, f))
  {
    var s' := Rotated(s, token, now, access, refresh);
    assert forall d :: RedeemedRoot(s', d, f) <==> RedeemedRoot(s, d, f);
  }

  lemma RotatedFamily(s: StoreState, token: Credential, now: Duration, access: Credential, refresh: Credential, f: nat)
    requires FamilyConserved(s, f) && token in s.refreshTokens && !s.refreshTokens[token].spent
    requires access !in s.accessTokens && refresh !in s.refreshTokens
    ensures FamilyConserved(Rotated(s, token, now, access, refresh), f)
  {
    var s', here := Rotated(s, token, now, access, refresh), f == s.refreshTokens[token].family;
    RotatedSets(s, token, now, access, refresh, f);
    SizeAfter(AccessOf(s, f), AccessOf(s', f), Granted(here, access), {});
    SizeAfter(RefreshOf(s, f), RefreshOf(s', f), Granted(here, refresh), {});
    SizeAfter(UnspentOf(s, f), UnspentOf(s', f), Granted(here, refresh), Granted(here, token));
  }

  lemma RotatedTotals(s: StoreState, token: Credential, now: Duration, access: Credential, refresh: Credential)
    requires token in s.refreshTokens && !s.refreshTokens[token].spent && refresh !in s.refreshTokens
    ensures var s' := Rotated(s, token, now, access, refresh);
            RedeemedCodes(s') == RedeemedCodes(s) && |UnspentTokens(s')| == |UnspentTokens(s)|
  {
    var s' := Rotated(s, token, now, access, refresh);
    assert Changed(UnspentTokens(s), UnspentTokens(s'), {refresh}, {token});
    SizeAfter(UnspentTokens(s), UnspentTokens(s'), {refresh}, {token});
  }

  lemma RotatedConserved(s: StoreState, token: Credential, now: Duration, access: Credential, refresh: Credential)
    requires Conserved(s) && token in s.refreshTokens && !s.refreshTokens[token].spent
    requires access !in s.accessTokens && refresh !in s.refreshTokens
    ensures Conserved(Rotated(s, token, now, access, refresh))
  {
    forall f: nat ensures FamilyConserved(Rotated(s, token, now, access, refresh), f) {
      RotatedFamily(s, token, now, access, refresh, f);
    }
    RotatedTotals(s, token, now, access, refresh);
  }

  lemma RefreshValid(s: StoreState, clientId: Text, token: Credential, now: Duration, access: Credential,
                     refresh: Credential)
    requires Valid(s)
    requires Refresh(s, clientId, token, now, access, refresh).1.Ok? ==>
               access !in Credentials(s) && refresh !in Credentials(s) && access != refresh
    ensures Valid(Refresh(s, clientId, token, now, access, refresh).0)
  {
    var (s', r) := Refresh(s, clientId, token, now, access, refresh);
    if r.Ok? {
      assert s' == Rotated(s, token, now, access, refresh);
      RotatedTyped(s, token, now, access, refresh);
      RotatedConserved(s, token, now, access, refresh);
    }
  }

  // ---- runs ----

  lemma StepValid(w: Server, op: Op)
    requires Valid(w.store) && Drawn(w, op)
    ensures Valid(Step(w, op).0.store)
  {
    HandedDrawn(w, op);
    match op
    case IssueCodeOp(clientId, uri, challenge, drawn) =>
      IssueCodeValid(w.store, clientId, uri, challenge, w.now, drawn);
    case RedeemOp(request, access, refresh) =>
      RedeemCodeValid(w.store, request, w.now, access, refresh);
    case RefreshOp(clientId, token, access, refresh) =>
      RefreshValid(w.store, clientId, token, w.now, access, refresh);
    case AppTokenOp(clientId, drawn) =>
      IssueAppTokenValid(w.store, clientId, w.now, drawn);
    case _ =>
  }

  /** `Drawn`, spelled out for the operations. */
  lemma HandedDrawn(w: Server, op: Op)
    requires Drawn(w, op)
    ensures op.IssueCodeOp? || op.AppTokenOp? ==> op.drawn !in Credentials(w.store)
    ensures (op.RedeemOp? || op.RefreshOp?) && Step(w, op).1.Grant? ==>
              && op.freshAccess !in Credentials(w.store)
              && op.freshRefresh !in Credentials(w.store)
              && op.freshAccess != op.freshRefresh
  {
    var handed := Handed(Step(w, op).1);
    if op.IssueCodeOp? || op.AppTokenOp? {
      assert handed[0] == op.drawn;
    } else if (op.RedeemOp? || op.RefreshOp?) && Step(w, op).1.Grant? {
      assert handed[0] == op.freshAccess && handed[1] == op.freshRefresh;
    }
  }

  /** Conservation and the rotation chain hold after every run. */
  lemma {:induction false} RunValid(w: Server, ops: seq<Op>)
    requires Valid(w.store) && ValidRun(w, ops)
    ensures Valid(After(w, ops).store)
    decreases |ops|
  {
    if ops != [] {
      StepValid(w, ops[0]);
      RunValid(Step(w, ops[0]).0, ops[1..]);
    }
  }
}
