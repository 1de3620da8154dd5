/** An eager reference for the store. It has no flags, no family numbers and no revoked set:
    everything in it is live. A code leaves when it is redeemed or expires, an access token when
    it expires, a refresh token when it is used, and a replay removes on the spot every token
    descended from the replayed code. The lazy store gives the same answers in every run. */
module Eager {
  import opened Wrappers
  import opened Bytes
  import opened Time
  import opened StoreModel
  import opened StoreInvariant
  import Pkce

  datatype PendingCode = PendingCode(clientId: Text, redirectUri: Text, codeChallenge: Text, expiresAt: Duration)

  /** `root` is the code the token descends from. */
  datatype LiveAccess = LiveAccess(kind: TokenKind, clientId: Text, expiresAt: Duration, root: Option<Credential>)

  datatype LiveRefresh = LiveRefresh(clientId: Text, root: Credential)

  datatype EagerServer = EagerServer(
    now: Duration,
    accessTokenLifetime: Duration,
    authorizationCodeLifetime: Duration,
    pending: map<Credential, PendingCode>,
    redeemed: map<Credential, Text>,
    access: map<Credential, LiveAccess>,
    refresh: map<Credential, LiveRefresh>)

  function EagerBoot(accessTokenLifetime: Duration, authorizationCodeLifetime: Duration): EagerServer {
    EagerServer(0, accessTokenLifetime, authorizationCodeLifetime, map[], map[], map[], map[])
  }

  /** Drops what the clock has passed. */
  function Purge(e: EagerServer): EagerServer {
    e.(pending := map c | c in e.pending && e.now < e.pending[c].expiresAt :: e.pending[c],
       access := map t | t in e.access && e.now < e.access[t].expiresAt :: e.access[t])
  }

  /** Removes every token descended from a code. */
  function Revoke(e: EagerServer, c: Credential): EagerServer {
    e.(access := map t | t in e.access && e.access[t].root != Some(c) :: e.access[t],
       refresh := map t | t in e.refresh && e.refresh[t].root != c :: e.refresh[t])
  }

  function Give(e: EagerServer, clientId: Text, root: Credential, access: Credential,
                refresh: Credential): EagerServer {
    var expiresAt := SaturatingAdd(e.now, e.accessTokenLifetime);
    e.(access := e.access[access := LiveAccess(User, clientId, expiresAt, Some(root))],
       refresh := e.refresh[refresh := LiveRefresh(clientId, root)])
  }

  function EagerRedeem(e: EagerServer, request: CodeRedemption, access: Credential, refresh: Credential)
    : (EagerServer, Answer)
  {
    var c := request.code;
    if c in e.pending then
      var p := e.pending[c];
      if p.clientId == request.clientId && p.redirectUri == request.redirectUri
         && Pkce.VerifyS256(request.codeVerifier, p.codeChallenge) then
        var e1 := e.(pending := e.pending - {c}, redeemed := e.redeemed[c := p.clientId]);
        (Give(e1, p.clientId, c, access, refresh), Grant(Issued(access, Some(refresh))))
      else (e, Refused)
    else if c in e.redeemed && e.redeemed[c] == request.clientId then (Revoke(e, c), Refused)
    else (e, Refused)
  }

  function EagerRefresh(e: EagerServer, clientId: Text, token: Credential, access: Credential, refresh: Credential)
    : (EagerServer, Answer)
  {
    if token in e.refresh && e.refresh[token].clientId == clientId then
      var e1 := e.(refresh := e.refresh - {token});
      (Give(e1, clientId, e.refresh[token].root, access, refresh), Grant(Issued(access, Some(refresh))))
    else (e, Refused)
  }

  function Until(now: Duration, end: Duration): Duration {
    if now < end then end - now else 0
  }

  function EagerAct(e: EagerServer, op: Op): (EagerServer, Answer) {
    match op
    case IssueCodeOp(clientId, uri, challenge, drawn) =>
      var expiresAt := SaturatingAdd(e.now, e.authorizationCodeLifetime);
      (e.(pending := e.pending[drawn := PendingCode(clientId, uri, challenge, expiresAt)]), Code(drawn))
    case RedeemOp(request, access, refresh) => EagerRedeem(e, request, access, refresh)
    case RefreshOp(clientId, token, access, refresh) => EagerRefresh(e, clientId, token, access, refresh)
    case AppTokenOp(clientId, drawn) =>
      var expiresAt := SaturatingAdd(e.now, e.accessTokenLifetime);
      (e.(access := e.access[drawn := LiveAccess(App, clientId, expiresAt, None)]), Grant(Issued(drawn, None)))
    case InfoOp(token) =>
      if token !in e.access then (e, Info(None))
      else
        var live := e.access[token];
        (e, Info(Some(TokenInfo(live.kind, live.clientId, Until(e.now, live.expiresAt)))))
    case AdvanceOp(delta) => (e.(now := SaturatingAdd(e.now, delta)), Done)
  }

  function EagerStep(e: EagerServer, op: Op): (EagerServer, Answer) {
    var (e', answer) := EagerAct(e, op);
    (Purge(e'), answer)
  }

  function EagerAnswers(e: EagerServer, ops: seq<Op>): seq<Answer>
    decreases |ops|
  {
    if ops == [] then [] else [EagerStep(e, ops[0]).1] + EagerAnswers(EagerStep(e, ops[0]).0, ops[1..])
  }

  // ---- when the two agree ----

  predicate LiveCode(w: Server, c: Credential) {
    && c in w.store.codes && !w.store.codes[c].redeemed
    && w.now < SaturatingAdd(w.store.codes[c].issuedAt, w.store.authorizationCodeLifetime)
  }

  predicate PendingAgrees(w: Server, e: EagerServer, c: Credential) {
    && (c in e.pending <==> LiveCode(w, c))
    && (c in e.pending ==>
          var code := w.store.codes[c];
          e.pending[c] == PendingCode(code.clientId, code.redirectUri, code.codeChallenge,
                                      SaturatingAdd(code.issuedAt, w.store.authorizationCodeLifetime)))
  }

  predicate RedeemedAgrees(w: Server, e: EagerServer, c: Credential) {
    && (c in e.redeemed <==> c in w.store.codes && w.store.codes[c].redeemed)
    && (c in e.redeemed ==> e.redeemed[c] == w.store.codes[c].clientId)
  }

  predicate RootAgrees(w: Server, root: Credential, family: nat) {
    root in w.store.codes && w.store.codes[root].family == family
  }

  predicate LiveToken(w: Server, t: Credential) {
    && t in w.store.accessTokens
    && w.now < w.store.accessTokens[t].expiresAt
    && (w.store.accessTokens[t].family.Some? ==> w.store.accessTokens[t].family.value !in w.store.revokedFamilies)
  }

  predicate AccessAgrees(w: Server, e: EagerServer, t: Credential) {
    && (t in e.access <==> LiveToken(w, t))
    && (t in e.access ==>
          var a, b := w.store.accessTokens[t], e.access[t];
          && a.kind == b.kind && a.clientId == b.clientId && a.expiresAt == b.expiresAt
          && (a.family.Some? <==> b.root.Some?)
          && (a.family.Some? ==> RootAgrees(w, b.root.value, a.family.value)))
  }

  predicate UsableRefresh(w: Server, t: Credential) {
    && t in w.store.refreshTokens && !w.store.refreshTokens[t].spent
    && w.store.refreshTokens[t].family !in w.store.revokedFamilies
  }

  predicate RefreshAgrees(w: Server, e: EagerServer, t: Credential) {
    && (t in e.refresh <==> UsableRefresh(w, t))
    && (t in e.refresh ==>
          && e.refresh[t].clientId == w.store.refreshTokens[t].clientId
          && RootAgrees(w, e.refresh[t].root, w.store.refreshTokens[t].family))
  }

  ghost predicate Agrees(w: Server, e: EagerServer) {
    && e.now == w.now
    && e.accessTokenLifetime == w.store.accessTokenLifetime
    && e.authorizationCodeLifetime == w.store.authorizationCodeLifetime
    && (forall c :: PendingAgrees(w, e, c))
    && (forall c :: RedeemedAgrees(w, e, c))
    && (forall t :: AccessAgrees(w, e, t))
    && (forall t :: RefreshAgrees(w, e, t))
  }

  // ---- each step keeps the agreement, map by map ----

  lemma PendingKeptByRedeem(w: Server, e: EagerServer, op: Op, c: Credential)
    requires Agrees(w, e) && Drawn(w, op) && op.RedeemOp?
    ensures PendingAgrees(Step(w, op).0, EagerStep(e, op).0, c)
  {
    assert PendingAgrees(w, e, c) && RedeemedAgrees(w, e, c);
    assert PendingAgrees(w, e, op.request.code) && RedeemedAgrees(w, e, op.request.code);
  }

  lemma PendingKept(w: Server, e: EagerServer, op: Op, c: Credential)
    requires Agrees(w, e) && Drawn(w, op)
    ensures PendingAgrees(Step(w, op).0, EagerStep(e, op).0, c)
  {
    if op.RedeemOp? {
      PendingKeptByRedeem(w, e, op, c);
    } else {
      HandedDrawn(w, op);
      assert PendingAgrees(w, e, c) && RedeemedAgrees(w, e, c);
    }
  }

  lemma RedeemedKeptByRedeem(w: Server, e: EagerServer, op: Op, c: Credential)
    requires Agrees(w, e) && Drawn(w, op) && op.RedeemOp?
    ensures RedeemedAgrees(Step(w, op).0, EagerStep(e, op).0, c)
  {
    assert PendingAgrees(w, e, c) && RedeemedAgrees(w, e, c);
    assert PendingAgrees(w, e, op.request.code) && RedeemedAgrees(w, e, op.request.code);
  }

  lemma RedeemedKept(w: Server, e: EagerServer, op: Op, c: Credential)
    requires Agrees(w, e) && Drawn(w, op)
    ensures RedeemedAgrees(Step(w, op).0, EagerStep(e, op).0, c)
  {
    if op.RedeemOp? {
      RedeemedKeptByRedeem(w, e, op, c);
    } else {
      HandedDrawn(w, op);
      assert PendingAgrees(w, e, c) && RedeemedAgrees(w, e, c);
    }
  }

  lemma AccessKeptByRedeem(w: Server, e: EagerServer, op: Op, t: Credential)
    requires Agrees(w, e) && Typed(w.store) && Drawn(w, op) && op.RedeemOp?
    ensures AccessAgrees(Step(w, op).0, EagerStep(e, op).0, t)
  {
    HandedDrawn(w, op);
    assert AccessAgrees(w, e, t);
    assert PendingAgrees(w, e, op.request.code) && RedeemedAgrees(w, e, op.request.code);
    if Step(w, op).1.Grant? {
      UnredeemedHasNone(w.store, op.request.code);
    }
  }

  lemma AccessKeptByRefresh(w: Server, e: EagerServer, op: Op, t: Credential)
    requires Agrees(w, e) && Drawn(w, op) && op.RefreshOp?
    ensures AccessAgrees(Step(w, op).0, EagerStep(e, op).0, t)
  {
    HandedDrawn(w, op);
    assert AccessAgrees(w, e, t);
    assert RefreshAgrees(w, e, op.token);
  }

  lemma AccessKept(w: Server, e: EagerServer, op: Op, t: Credential)
    requires Agrees(w, e) && Typed(w.store) && Drawn(w, op)
    ensures AccessAgrees(Step(w, op).0, EagerStep(e, op).0, t)
  {
    if op.RedeemOp? {
      AccessKeptByRedeem(w, e, op, t);
    } else if op.RefreshOp? {
      AccessKeptByRefresh(w, e, op, t);
    } else {
      HandedDrawn(w, op);
      assert AccessAgrees(w, e, t);
    }
  }

  lemma RefreshKeptByRedeem(w: Server, e: EagerServer, op: Op, t: Credential)
    requires Agrees(w, e) && Typed(w.store) && Drawn(w, op) && op.RedeemOp?
    ensures RefreshAgrees(Step(w, op).0, EagerStep(e, op).0, t)
  {
    HandedDrawn(w, op);
    assert RefreshAgrees(w, e, t);
    assert PendingAgrees(w, e, op.request.code) && RedeemedAgrees(w, e, op.request.code);
    if Step(w, op).1.Grant? {
      UnredeemedHasNone(w.store, op.request.code);
    }
  }

  lemma RefreshKeptByRefresh(w: Server, e: EagerServer, op: Op, t: Credential)
    requires Agrees(w, e) && Drawn(w, op) && op.RefreshOp?
    ensures RefreshAgrees(Step(w, op).0, EagerStep(e, op).0, t)
  {
    HandedDrawn(w, op);
    assert RefreshAgrees(w, e, t);
    assert RefreshAgrees(w, e, op.token);
  }

  lemma RefreshKept(w: Server, e: EagerServer, op: Op, t: Credential)
    requires Agrees(w, e) && Typed(w.store) && Drawn(w, op)
    ensures RefreshAgrees(Step(w, op).0, EagerStep(e, op).0, t)
  {
    if op.RedeemOp? {
      RefreshKeptByRedeem(w, e, op, t);
    } else if op.RefreshOp? {
      RefreshKeptByRefresh(w, e, op, t);
    } else {
      HandedDrawn(w, op);
      assert RefreshAgrees(w, e, t);
    }
  }

  lemma SameAnswer(w: Server, e: EagerServer, op: Op)
    requires Agrees(w, e)
    ensures EagerStep(e, op).1 == Step(w, op).1
  {
    match op
    case RedeemOp(request, _, _) =>
      assert PendingAgrees(w, e, request.code) && RedeemedAgrees(w, e, request.code);
    case RefreshOp(_, token, _, _) =>
      assert RefreshAgrees(w, e, token);
    case InfoOp(token) =>
      assert AccessAgrees(w, e, token);
    case _ =>
  }

  lemma StepAgrees(w: Server, e: EagerServer, op: Op)
    requires Agrees(w, e) && Typed(w.store) && Drawn(w, op)
    ensures Agrees(Step(w, op).0, EagerStep(e, op).0)
    ensures EagerStep(e, op).1 == Step(w, op).1
  {
    var w', e' := Step(w, op).0, EagerStep(e, op).0;
    SameAnswer(w, e, op);
    forall c ensures PendingAgrees(w', e', c) && RedeemedAgrees(w', e', c) {
      PendingKept(w, e, op, c);
      RedeemedKept(w, e, op, c);
    }
    forall t ensures AccessAgrees(w', e', t) && RefreshAgrees(w', e', t) {
      AccessKept(w, e, op, t);
      RefreshKept(w, e, op, t);
    }
  }

  lemma {:induction false} RunAgrees(w: Server, e: EagerServer, ops: seq<Op>)
    requires Agrees(w, e) && Valid(w.store) && ValidRun(w, ops)
    ensures EagerAnswers(e, ops) == Answers(w, ops)
    decreases |ops|
  {
    if ops != [] {
      StepAgrees(w, e, ops[0]);
      StepValid(w, ops[0]);
      RunAgrees(Step(w, ops[0]).0, EagerStep(e, ops[0]).0, ops[1..]);
    }
  }

  /** The lazy store refines the eager one: started together, they answer every run alike. */
  lemma LazyRefinesEager(accessTokenLifetime: Duration, authorizationCodeLifetime: Duration, ops: seq<Op>)
    requires ValidRun(Boot(accessTokenLifetime, authorizationCodeLifetime), ops)
    ensures Answers(Boot(accessTokenLifetime, authorizationCodeLifetime), ops)
         == EagerAnswers(EagerBoot(accessTokenLifetime, authorizationCodeLifetime), ops)
  {
    NewStoreValid(accessTokenLifetime, authorizationCodeLifetime);
    RunAgrees(Boot(accessTokenLifetime, authorizationCodeLifetime),
              EagerBoot(accessTokenLifetime, authorizationCodeLifetime), ops);
  }
}
