/** What a caller got, told by what it did: where every returned token comes from, and what every
    outcome of an API request means, in all interleavings. */
module Callers {
  import opened Wrappers
  import opened Bytes
  import opened StoreModel
  import opened StoreInvariant
  import opened RefreshMachine
  import opened RefreshProtocol

  // ---- when a refresh is asked for ----

  /** The first look at the file: a token whose time has come sends the caller to the lock, any
      other is its answer. */
  lemma LoadDecides(sys: Sys, i: nat)
    requires Enabled(sys, Load(i))
    ensures var pc := Next(sys, Load(i)).callers[i].pc;
            match sys.disk
            case None => pc == Returned(Failed(NotLoggedIn))
            case Some(file) =>
              && (pc == Waiting(Expired) <==> file.expiresAt <= Now(sys))
              && (file.expiresAt > Now(sys) ==> pc == Given(sys.callers[i].kind, file.accessToken))
  {
  }

  /** The look under the lock: a refresh is sent exactly when the token is still expired, or still
      the one that was rejected. */
  lemma CheckDecides(sys: Sys, i: nat)
    requires Enabled(sys, Check(i))
    ensures var pc, goal, end := Next(sys, Check(i)).callers[i].pc, sys.callers[i].pc.goal, Next(sys, Check(i));
            match sys.disk
            case None => pc == Returned(Failed(NotLoggedIn)) && end.lock == None
            case Some(file) =>
              var needed := match goal
                            case Expired => file.expiresAt <= Now(sys)
                            case Rejected(token) => file.accessToken == token;
              && (pc == Sending(goal, file) <==> needed)
              && (!needed ==> pc == Given(sys.callers[i].kind, file.accessToken) && end.lock == None)
  {
  }

  /** A refresh without an answer is never taken for a refusal. */
  lemma SilenceIsNoRefusal(sys: Sys, i: nat, access: Credential, refresh: Credential, fate: Fate)
    requires Enabled(sys, Exchange(i, access, refresh, fate)) && !fate.Arrived?
    ensures Next(sys, Exchange(i, access, refresh, fate)).callers[i].pc == Returned(Failed(TokenRequest(NoAnswer)))
  {
  }

  /** `get_json` goes on with its token, the other calls are over. */
  function Given(kind: Kind, token: Credential): Pc {
    match kind
    case GetJson => Calling(token)
    case _ => Returned(Token(token))
  }

  // ---- what a caller did ----

  /** The access tokens a caller saw in the file, those of them that had not expired when it looked,
      those of its own refreshes, the token of its last API request, and the response to it. */
  datatype Past = Past(
    seen: set<Credential>,
    live: set<Credential>,
    refreshed: set<Credential>,
    called: Option<Credential>,
    last: Option<ApiResponse>)

  const NOTHING: Past := Past({}, {}, {}, None, None)

  function Looked(past: Past, sys: Sys): Past {
    match sys.disk
    case None => past
    case Some(file) =>
      past.(seen := past.seen + {file.accessToken},
            live := past.live + (if Now(sys) < file.expiresAt then {file.accessToken} else {}))
  }

  function PastNext(past: Past, sys: Sys, action: Action, i: nat): Past
    requires Enabled(sys, action)
  {
    match action
    case Load(j) => if j == i then Looked(past, sys) else past
    case Check(j) => if j == i then Looked(past, sys) else past
    case Save(j, Done) =>
      if j == i then past.(refreshed := past.refreshed + {sys.callers[i].pc.answer.accessToken}) else past
    case Api(j, response) =>
      if j == i then past.(called := Some(sys.callers[i].pc.token), last := Some(response)) else past
    case _ => past
  }

  ghost function PastOf(past: Past, start: Sys, actions: seq<Action>, i: nat): Past
    decreases |actions|
  {
    if actions == [] || !Enabled(start, actions[0]) then past
    else PastOf(PastNext(past, start, actions[0], i), Next(start, actions[0]), actions[1..], i)
  }

  // ---- and what it has from it ----

  /** A token that a caller was given. */
  function Has(pc: Pc): Option<Credential> {
    match pc
    case Calling(token) => Some(token)
    case Returned(Token(token)) => Some(token)
    case _ => None
  }

  function GoalOf(pc: Pc): Option<Goal> {
    match pc
    case Waiting(goal) => Some(goal)
    case Locked(goal) => Some(goal)
    case Sending(goal, _) => Some(goal)
    case Received(goal, _, _) => Some(goal)
    case _ => None
  }

  /** Nothing that only an API response can lead to. */
  predicate OfTokens(pc: Pc) {
    pc.Returned? ==> match pc.outcome
                     case Token(_) => true
                     case Failed(failure) =>
                       failure.NotLoggedIn? || failure.SessionExpired? || failure.Storage? || failure.TokenRequest?
                     case _ => false
  }

  /** A caller of `get_valid_token`: its token had not expired when it saw it, or it is new. */
  predicate FirstTry(past: Past, caller: Caller) {
    && OfTokens(caller.pc) && GoalOf(caller.pc) in {None, Some(Expired)}
    && (BeforeRefresh(caller.pc) ==> caller.refreshRequests == 0)
    && (caller.pc.Received? || caller.pc.Saved? ==> caller.refreshRequests > 0)
    && (caller.pc.Saved? ==> caller.pc.token in past.refreshed)
    && (Has(caller.pc).Some? ==>
          Has(caller.pc).value in (if caller.refreshRequests == 0 then past.live else past.refreshed))
  }

  /** A caller whose token was rejected: it gets another one. */
  predicate SecondTry(saved: set<Credential>, past: Past, pc: Pc, rejected: Credential) {
    && OfTokens(pc) && !pc.Begin? && GoalOf(pc) in {None, Some(Rejected(rejected))}
    && (pc.Received? ==> rejected in saved)
    && (pc.Saved? ==> pc.token != rejected && pc.token in past.refreshed)
    && (Has(pc).Some? ==> Has(pc).value != rejected && Has(pc).value in past.seen + past.refreshed)
  }

  predicate IsSuccess(response: ApiResponse) {
    response.Response? && 200 <= response.status < 300
  }

  predicate IsWhole(response: ApiResponse) {
    response.Response? && (response.body.Undecodable? || response.body.Decodable?)
  }

  /** What the last response means: JSON exactly for a success whose body arrived and decodes. */
  ghost predicate Means(outcome: Outcome, response: ApiResponse) {
    && (outcome == Json <==> IsSuccess(response) && response.body.Decodable?)
    && (outcome == Failed(BadBody) <==> IsSuccess(response) && response.body.Undecodable?)
    && (forall n :: outcome == Failed(BadStatus(n)) <==>
                      IsWhole(response) && !IsSuccess(response) && response.status == n)
    && (outcome == Failed(ApiTransport) <==> !IsWhole(response))
  }

  predicate Is401(response: ApiResponse) {
    response.Response? && response.status == 401
  }

  ghost predicate JsonExplained(saved: set<Credential>, past: Past, caller: Caller) {
    match past.last
    case None => caller.apiRequests == 0 && FirstTry(past, caller)
    case Some(response) =>
      && caller.apiRequests > 0 && past.called.Some?
      && (if !Is401(response) then caller.pc.Returned? && Means(caller.pc.outcome, response)
          else if caller.apiRequests == 1 then SecondTry(saved, past, caller.pc, past.called.value)
          else caller.pc == Returned(Failed(SessionExpired)))
  }

  ghost predicate Explained(saved: set<Credential>, past: Past, caller: Caller) {
    match caller.kind
    case GetValidToken => past.last.None? && FirstTry(past, caller)
    case RefreshAfterUnauthorized(rejected) => past.last.None? && SecondTry(saved, past, caller.pc, rejected)
    case GetJson => JsonExplained(saved, past, caller)
    case CompleteLogin(_) => past.last.None?
  }

  ghost predicate ExplainedAt(sys: Sys, past: Past, i: nat) {
    if At(sys, i) then Explained(sys.saved, past, sys.callers[i]) else past == NOTHING
  }

  // ---- every action keeps the explanation ----

  lemma MoreSaved(saved: set<Credential>, more: set<Credential>, past: Past, caller: Caller)
    requires Explained(saved, past, caller) && saved <= more
    ensures Explained(more, past, caller)
  {
  }

  lemma SpawnExplained(sys: Sys, past: Past, kind: Kind, i: nat)
    requires ExplainedAt(sys, past, i)
    ensures ExplainedAt(sys.(callers := sys.callers + [Caller(kind, Start(kind), 0, 0)]), past, i)
  {
  }

  lemma LoadExplained(sys: Sys, past: Past, i: nat)
    requires Inv(sys) && Enabled(sys, Load(i)) && ExplainedAt(sys, past, i)
    ensures ExplainedAt(Next(sys, Load(i)), PastNext(past, sys, Load(i), i), i)
  {
    assert CallerOk(sys, i);
    LoadDecides(sys, i);
  }

  lemma CheckExplained(sys: Sys, past: Past, i: nat)
    requires Inv(sys) && Enabled(sys, Check(i)) && ExplainedAt(sys, past, i)
    ensures ExplainedAt(Next(sys, Check(i)), PastNext(past, sys, Check(i), i), i)
  {
    assert CallerOk(sys, i);
    CheckDecides(sys, i);
  }

  /** Where an exchange leaves its caller. */
  predicate AfterExchange(saved: set<Credential>, before: Caller, after: Caller)
    requires before.pc.Sending?
  {
    && after.kind == before.kind && after.apiRequests == before.apiRequests
    && after.refreshRequests == before.refreshRequests + 1
    && match after.pc
       case Received(goal, _, _) => goal == before.pc.goal && (goal.Rejected? ==> goal.token in saved)
       case Returned(Failed(failure)) => failure.SessionExpired? || failure.TokenRequest?
       case _ => false
  }

  lemma ExchangeLeaves(sys: Sys, action: Action, i: nat)
    requires Inv(sys) && Enabled(sys, action) && action.Exchange? && action.i == i
    ensures var end := Next(sys, action);
            && |end.callers| == |sys.callers| && end.saved == sys.saved
            && AfterExchange(sys.saved, sys.callers[i], end.callers[i])
  {
    assert CallerOk(sys, i);
  }

  lemma CallerExchanged(saved: set<Credential>, past: Past, before: Caller, after: Caller)
    requires before.pc.Sending? && Explained(saved, past, before) && AfterExchange(saved, before, after)
    ensures Explained(saved, past, after)
  {
  }

  lemma ExchangeExplained(sys: Sys, past: Past, action: Action, i: nat)
    requires Inv(sys) && Enabled(sys, action) && action.Exchange? && action.i == i && ExplainedAt(sys, past, i)
    ensures ExplainedAt(Next(sys, action), past, i)
  {
    ExchangeLeaves(sys, action, i);
    CallerExchanged(sys.saved, past, sys.callers[i], Next(sys, action).callers[i]);
  }

  lemma SaveFails(sys: Sys, past: Past, action: Action, i: nat)
    requires Enabled(sys, action) && action.Save? && action.i == i && !action.result.Done? && ExplainedAt(sys, past, i)
    ensures ExplainedAt(Next(sys, action), past, i)
  {
  }

  lemma SaveExplained(sys: Sys, past: Past, action: Action, i: nat)
    requires Inv(sys) && Enabled(sys, action) && action.Save? && action.i == i && ExplainedAt(sys, past, i)
    ensures ExplainedAt(Next(sys, action), PastNext(past, sys, action, i), i)
  {
    if action.result.Done? {
      assert CallerOk(sys, i);
      CallerSaved(sys.saved, Next(sys, action).saved, past, sys.callers[i]);
    } else {
      SaveFails(sys, past, action, i);
    }
  }

  lemma CallerSaved(saved: set<Credential>, more: set<Credential>, past: Past, before: Caller)
    requires before.pc.Received? && Explained(saved, past, before) && before.pc.answer.accessToken !in saved
    ensures var token := before.pc.answer.accessToken;
            Explained(more, past.(refreshed := past.refreshed + {token}), before.(pc := Saved(token)))
  {
  }

  lemma ReleaseExplained(sys: Sys, past: Past, i: nat)
    requires Inv(sys) && Enabled(sys, Release(i)) && ExplainedAt(sys, past, i)
    ensures ExplainedAt(Next(sys, Release(i)), past, i)
  {
    assert CallerOk(sys, i);
  }

  lemma ApiExplained(sys: Sys, past: Past, action: Action, i: nat)
    requires Inv(sys) && Enabled(sys, action) && action.Api? && action.i == i && ExplainedAt(sys, past, i)
    ensures ExplainedAt(Next(sys, action), PastNext(past, sys, action, i), i)
  {
    assert CallerOk(sys, i);
  }

  /** Taking the lock, and the actions of a login. */
  lemma OtherExplained(sys: Sys, past: Past, action: Action, i: nat)
    requires Inv(sys) && Enabled(sys, action) && ExplainedAt(sys, past, i)
    requires (action.Acquire? || action.Trade? || action.SaveLogin?) && action.i == i
    ensures ExplainedAt(Next(sys, action), past, i)
  {
    assert CallerOk(sys, i);
  }

  predicate ActsAs(action: Action, i: nat) {
    match action
    case Spawn(_) => false
    case Others(_) => false
    case _ => action.i == i
  }

  /** Whatever somebody else does, a caller is where it was. */
  lemma BystanderExplained(sys: Sys, past: Past, action: Action, i: nat)
    requires Enabled(sys, action) && !ActsAs(action, i) && !action.Spawn? && ExplainedAt(sys, past, i)
    ensures ExplainedAt(Next(sys, action), PastNext(past, sys, action, i), i)
  {
    assert PastNext(past, sys, action, i) == past;
    StandsBy(sys, action, i);
    if At(sys, i) {
      MoreSaved(sys.saved, Next(sys, action).saved, past, sys.callers[i]);
    }
  }

  lemma StandsBy(sys: Sys, action: Action, i: nat)
    requires Enabled(sys, action) && !ActsAs(action, i) && !action.Spawn?
    ensures var end := Next(sys, action);
            && |end.callers| == |sys.callers| && sys.saved <= end.saved
            && (At(sys, i) ==> end.callers[i] == sys.callers[i])
  {
  }

  lemma NextExplained(sys: Sys, past: Past, action: Action, i: nat)
    requires Inv(sys) && Enabled(sys, action) && ExplainedAt(sys, past, i)
    ensures ExplainedAt(Next(sys, action), PastNext(past, sys, action, i), i)
  {
    if action.Spawn? {
      SpawnExplained(sys, past, action.kind, i);
    } else if !ActsAs(action, i) {
      BystanderExplained(sys, past, action, i);
    } else {
      match action
      case Load(_) => LoadExplained(sys, past, i);
      case Check(_) => CheckExplained(sys, past, i);
      case Exchange(_, _, _, _) => ExchangeExplained(sys, past, action, i);
      case Save(_, _) => SaveExplained(sys, past, action, i);
      case Release(_) => ReleaseExplained(sys, past, i);
      case Api(_, _) => ApiExplained(sys, past, action, i);
      case Acquire(_) => OtherExplained(sys, past, action, i);
      case Trade(_, _, _, _) => OtherExplained(sys, past, action, i);
      case SaveLogin(_, _) => OtherExplained(sys, past, action, i);
    }
  }

  lemma {:induction false} RunExplained(start: Sys, past: Past, actions: seq<Action>, end: Sys, i: nat)
    requires Valid(start.server.store) && Inv(start) && ExplainedAt(start, past, i) && Reachable(start, actions, end)
    ensures ExplainedAt(end, PastOf(past, start, actions, i), i)
    decreases |actions|
  {
    if actions != [] {
      NextKeeps(start, actions[0]);
      NextExplained(start, past, actions[0], i);
      RunExplained(Next(start, actions[0]), PastNext(past, start, actions[0], i), actions[1..], end, i);
    }
  }

  lemma FromStart(me: Text, epoch: nat, server: Server, actions: seq<Action>, sys: Sys, i: nat)
    requires StoreInvariant.Valid(server.store) && Reachable(Init(me, epoch, server), actions, sys) && At(sys, i)
    ensures Explained(sys.saved, PastOf(NOTHING, Init(me, epoch, server), actions, i), sys.callers[i])
  {
    InitOk(me, epoch, server);
    RunExplained(Init(me, epoch, server), NOTHING, actions, sys, i);
  }

  // ---- what every caller got ----

  /** A token that `get_valid_token` returns without a refresh of its own had not expired when the
      caller looked at the file; one that it returns after a refresh is the one it saved. */
  lemma ValidTokenIsValid(me: Text, epoch: nat, server: Server, actions: seq<Action>, sys: Sys, i: nat)
    requires StoreInvariant.Valid(server.store) && Reachable(Init(me, epoch, server), actions, sys) && At(sys, i)
    requires sys.callers[i].kind.GetValidToken? && sys.callers[i].pc.Returned? && sys.callers[i].pc.outcome.Token?
    ensures var past, token := PastOf(NOTHING, Init(me, epoch, server), actions, i), sys.callers[i].pc.outcome.token;
            if sys.callers[i].refreshRequests == 0 then token in past.live else token in past.refreshed
  {
    FromStart(me, epoch, server, actions, sys, i);
  }

  /** A caller whose token was rejected never gets that token back: neither from
      `refresh_after_unauthorized` nor for the second API request of `get_json`. */
  lemma RejectedIsReplaced(me: Text, epoch: nat, server: Server, actions: seq<Action>, sys: Sys, i: nat)
    requires StoreInvariant.Valid(server.store) && Reachable(Init(me, epoch, server), actions, sys) && At(sys, i)
    ensures var caller, past := sys.callers[i], PastOf(NOTHING, Init(me, epoch, server), actions, i);
            && (caller.kind.RefreshAfterUnauthorized? && caller.pc.Returned? && caller.pc.outcome.Token? ==>
                  && caller.pc.outcome.token != caller.kind.rejected
                  && caller.pc.outcome.token in past.seen + past.refreshed)
            && (caller.pc.Calling? && caller.apiRequests > 0 ==>
                  && past.last.Some? && Is401(past.last.value) && past.called.Some?
                  && caller.pc.token != past.called.value && caller.pc.token in past.seen + past.refreshed)
  {
    FromStart(me, epoch, server, actions, sys, i);
    FromInit(me, epoch, server, actions, sys);
    assert CallerOk(sys, i);
  }

  /** The response is a success, arrived whole, or is a 401. */
  lemma MeaningsSpelledOut(saved: set<Credential>, past: Past, caller: Caller)
    requires caller.kind.GetJson? && caller.pc.Returned? && Explained(saved, past, caller)
    ensures match past.last
            case None => OfTokens(caller.pc)
            case Some(response) =>
              if Is401(response) then caller.pc == Returned(Failed(SessionExpired)) || caller.apiRequests == 1
              else Means(caller.pc.outcome, response)
    ensures caller.apiRequests == 1 && past.last.Some? && Is401(past.last.value) ==> OfTokens(caller.pc)
    ensures caller.pc.outcome == Json ==> past.last.Some? && !Is401(past.last.value)
  {
  }

  /** What `get_json` reports, exactly, by the last response it got. */
  lemma OutcomeIsMeant(me: Text, epoch: nat, server: Server, actions: seq<Action>, sys: Sys, i: nat)
    requires StoreInvariant.Valid(server.store) && Reachable(Init(me, epoch, server), actions, sys) && At(sys, i)
    requires sys.callers[i].kind.GetJson? && sys.callers[i].pc.Returned?
    ensures var outcome, last := sys.callers[i].pc.outcome, PastOf(NOTHING, Init(me, epoch, server), actions, i).last;
            && (outcome == Json <==>
                  last.Some? && last.value.Response? && 200 <= last.value.status < 300 && last.value.body.Decodable?)
            && (outcome == Failed(BadBody) <==>
                  last.Some? && last.value.Response? && 200 <= last.value.status < 300 && last.value.body.Undecodable?)
            && (forall n :: outcome == Failed(BadStatus(n)) <==>
                  && last.Some? && last.value.Response? && !last.value.body.Broken?
                  && last.value.status == n && !(200 <= n < 300) && n != 401)
            && (outcome == Failed(ApiTransport) <==>
                  last.Some? && (last.value.NoResponse? || (last.value.body.Broken? && last.value.status != 401)))
    ensures sys.callers[i].apiRequests == 2 ==>
              var last := PastOf(NOTHING, Init(me, epoch, server), actions, i).last;
              last.Some? && (last.value.Response? && last.value.status == 401 ==>
                               sys.callers[i].pc.outcome == Failed(SessionExpired))
  {
    FromStart(me, epoch, server, actions, sys, i);
    MeaningsSpelledOut(sys.saved, PastOf(NOTHING, Init(me, epoch, server), actions, i), sys.callers[i]);
  }
}
