/** The expiry margin in the protocol: in a run whose answers are saved within the margin, a token
    that the client takes for valid is one that the server still accepts, unless its session was
    revoked. */
module Freshness {
  import opened Wrappers
  import opened Bytes
  import opened Time
  import opened StoreModel
  import opened StoreInvariant
  import opened Tokens
  import opened RefreshMachine
  import opened RefreshProtocol
  import Runs

  /** No more than the margin has gone by since the server issued the access token: what is left of
      its lifetime, and the margin, make up at least a whole lifetime. */
  predicate InMargin(w: Server, token: Credential) {
    && token in w.store.accessTokens
    && w.now + w.store.accessTokenLifetime <= w.store.accessTokens[token].expiresAt + EXPIRY_MARGIN_SECS * NANOS_PER_SEC
  }

  /** Whatever the action saves came in time. */
  predicate PromptNow(sys: Sys, action: Action)
    requires Enabled(sys, action)
  {
    match action
    case Save(i, result) => result.Unchanged? || InMargin(sys.server, sys.callers[i].pc.answer.accessToken)
    case SaveLogin(i, result) => result.Unchanged? || InMargin(sys.server, sys.callers[i].pc.answer.accessToken)
    case _ => true
  }

  ghost predicate Prompt(start: Sys, actions: seq<Action>)
    decreases |actions|
  {
    actions == [] ||
    (Enabled(start, actions[0]) && PromptNow(start, actions[0]) && Prompt(Next(start, actions[0]), actions[1..]))
  }

  // ---- what is kept ----

  /** The time in the file is no later than the server's, or has come. */
  predicate FileTimed(w: Server, epoch: nat, file: Tokens) {
    && file.accessToken in w.store.accessTokens
    && (|| file.expiresAt * NANOS_PER_SEC <= epoch + w.store.accessTokens[file.accessToken].expiresAt
        || file.expiresAt <= ClientSecs(epoch, w.now))
  }

  predicate AnswerTimed(w: Server, pc: Pc) {
    Owed(pc).Some? ==> Owed(pc).value.expiresIn == AsSecs(w.store.accessTokenLifetime)
  }

  predicate Timed(sys: Sys) {
    && (sys.disk.Some? ==> FileTimed(sys.server, sys.epoch, sys.disk.value))
    && forall i | 0 <= i < |sys.callers| :: AnswerTimed(sys.server, sys.callers[i].pc)
  }

  lemma ClientTimeGrows(epoch: nat, t: Duration, t': Duration)
    requires t <= t'
    ensures ClientSecs(epoch, t) <= ClientSecs(epoch, t')
  {
  }

  lemma ServerKeepsTime(w: Server, op: Op, epoch: nat, file: Tokens)
    requires Drawn(w, op) && FileTimed(w, epoch, file)
    ensures FileTimed(Step(w, op).0, epoch, file)
  {
    Runs.StepPersists(w, op);
    ClientTimeGrows(epoch, w.now, Step(w, op).0.now);
  }

  lemma ServerKeepsAnswers(w: Server, op: Op, pc: Pc)
    requires Drawn(w, op) && AnswerTimed(w, pc)
    ensures AnswerTimed(Step(w, op).0, pc)
  {
    Runs.StepPersists(w, op);
  }

  /** The margin, in arithmetic: a file written in time expires no later than the token. */
  lemma MarginKeepsTime(epoch: nat, now: Duration, lifetime: Duration, expiresAt: Duration)
    requires now + lifetime <= expiresAt + EXPIRY_MARGIN_SECS * NANOS_PER_SEC
    ensures var time := ClientSecs(epoch, now) + SaturatingSub(AsSecs(lifetime), EXPIRY_MARGIN_SECS);
            time * NANOS_PER_SEC <= epoch + expiresAt || time <= ClientSecs(epoch, now)
  {
  }

  lemma SavedInTime(w: Server, epoch: nat, answer: TokenResponse)
    requires InMargin(w, answer.accessToken) && answer.expiresIn == AsSecs(w.store.accessTokenLifetime)
    ensures FileTimed(w, epoch, FromResponse(answer, ClientSecs(epoch, w.now)))
  {
    MarginKeepsTime(epoch, w.now, w.store.accessTokenLifetime, w.store.accessTokens[answer.accessToken].expiresAt);
  }

  lemma ServedTimed(sys: Sys, server: Server, op: Op, end: Sys)
    requires Timed(sys) && Drawn(sys.server, op) && server == Step(sys.server, op).0
    requires end == sys.(server := server, callers := end.callers, lock := end.lock, log := end.log, lost := end.lost)
    requires |end.callers| == |sys.callers|
    requires forall i | 0 <= i < |sys.callers| ::
               end.callers[i].pc == sys.callers[i].pc || AnswerTimed(sys.server, end.callers[i].pc)
    ensures Timed(end)
  {
    if sys.disk.Some? {
      ServerKeepsTime(sys.server, op, sys.epoch, sys.disk.value);
    }
    forall i | 0 <= i < |end.callers| ensures AnswerTimed(server, end.callers[i].pc) {
      assert AnswerTimed(sys.server, sys.callers[i].pc);
      ServerKeepsAnswers(sys.server, op, end.callers[i].pc);
    }
  }

  lemma ExchangeTimed(sys: Sys, action: Action)
    requires Timed(sys) && Enabled(sys, action) && action.Exchange?
    ensures Timed(Next(sys, action))
  {
    var stored := sys.callers[action.i].pc.stored;
    if !action.fate.NeverSent? {
      var op := RefreshRequest(sys, stored, action.freshAccess, action.freshRefresh);
      ServedTimed(sys, Step(sys.server, op).0, op, Next(sys, action));
    }
  }

  lemma TradeTimed(sys: Sys, action: Action)
    requires Timed(sys) && Enabled(sys, action) && action.Trade?
    ensures Timed(Next(sys, action))
  {
    if !action.fate.NeverSent? {
      var op := RedeemOp(sys.callers[action.i].kind.request, action.freshAccess, action.freshRefresh);
      ServedTimed(sys, Step(sys.server, op).0, op, Next(sys, action));
    }
  }

  lemma FilingTimed(sys: Sys, action: Action)
    requires Timed(sys) && Enabled(sys, action) && (action.Save? || action.SaveLogin?) && PromptNow(sys, action)
    ensures Timed(Next(sys, action))
  {
    assert AnswerTimed(sys.server, sys.callers[action.i].pc);
    if !action.result.Unchanged? {
      SavedInTime(sys.server, sys.epoch, sys.callers[action.i].pc.answer);
    }
  }

  lemma OthersTimed(sys: Sys, action: Action)
    requires Timed(sys) && Enabled(sys, action) && action.Others?
    ensures Timed(Next(sys, action))
  {
    ServedTimed(sys, Step(sys.server, action.op).0, action.op, Next(sys, action));
  }

  lemma NextTimed(sys: Sys, action: Action)
    requires Timed(sys) && Enabled(sys, action) && PromptNow(sys, action)
    ensures Timed(Next(sys, action))
  {
    match action
    case Exchange(_, _, _, _) => ExchangeTimed(sys, action);
    case Trade(_, _, _, _) => TradeTimed(sys, action);
    case Save(_, _) => FilingTimed(sys, action);
    case SaveLogin(_, _) => FilingTimed(sys, action);
    case Others(_) => OthersTimed(sys, action);
    case _ =>
  }

  lemma {:induction false} RunTimed(start: Sys, actions: seq<Action>, end: Sys)
    requires Timed(start) && Reachable(start, actions, end) && Prompt(start, actions)
    ensures Timed(end)
    decreases |actions|
  {
    if actions != [] {
      NextTimed(start, actions[0]);
      RunTimed(Next(start, actions[0]), actions[1..], end);
    }
  }

  // ---- so ----

  lemma UnexpiredIsInTime(w: Server, epoch: nat, file: Tokens)
    requires FileTimed(w, epoch, file) && ClientSecs(epoch, w.now) < file.expiresAt
    ensures w.now < w.store.accessTokens[file.accessToken].expiresAt
  {
    assert epoch + w.now < (ClientSecs(epoch, w.now) + 1) * NANOS_PER_SEC;
  }

  /** In any run whose answers are saved within the margin: as long as the time in the file has not
      come, the server accepts its access token, unless and until it revoked the session. */
  lemma UnexpiredIsAccepted(me: Text, epoch: nat, server: Server, actions: seq<Action>, sys: Sys)
    requires Reachable(Init(me, epoch, server), actions, sys) && Prompt(Init(me, epoch, server), actions)
    requires sys.disk.Some? && Now(sys) < sys.disk.value.expiresAt
    ensures var store, token := sys.server.store, sys.disk.value.accessToken;
            && token in store.accessTokens
            && (AccessTokenInfo(store, token, sys.server.now).Some? <==>
                  var family := store.accessTokens[token].family;
                  family.None? || family.value !in store.revokedFamilies)
  {
    RunTimed(Init(me, epoch, server), actions, sys);
    UnexpiredIsInTime(sys.server, sys.epoch, sys.disk.value);
  }

  /** And a token just saved in time is accepted, where it lives longer than the margin. */
  lemma SavedIsAccepted(w: Server, token: Credential)
    requires InMargin(w, token) && w.store.accessTokenLifetime > EXPIRY_MARGIN_SECS * NANOS_PER_SEC
    ensures AccessTokenInfo(w.store, token, w.now).Some? <==>
            var family := w.store.accessTokens[token].family;
            family.None? || family.value !in w.store.revokedFamilies
  {
  }
}
