/** The client's token manager and API client as objects. Each call, when nobody overtakes it, is
    proved to be a run of the refresh protocol, so everything proved of all runs holds of it. */
module Manager {
  import opened Wrappers
  import opened Bytes
  import opened Time
  import opened StoreModel
  import opened Tokens
  import opened RefreshMachine
  import Callers
  import RefreshProtocol
  import TokenFile

  /** New credentials for any store. */
  type Oracle = StoreState -> (Credential, Credential)

  ghost predicate NeverRepeats(draw: Oracle) {
    forall s :: draw(s).0 !in Credentials(s) && draw(s).1 !in Credentials(s) && draw(s).0 != draw(s).1
  }

  /** What the world does to one token request and to the save that follows it. */
  datatype Conditions = Conditions(draw: Oracle, fate: Fate, delay: Duration, faults: seq<bool>)

  ghost predicate Possible(c: Conditions) {
    NeverRepeats(c.draw) && |c.faults| == 7
  }

  function RefreshOf(clientId: Text, token: Credential, s: StoreState, draw: Oracle): Op {
    RefreshOp(clientId, token, draw(s).0, draw(s).1)
  }

  function RedeemOf(request: CodeRedemption, s: StoreState, draw: Oracle): Op {
    RedeemOp(request, draw(s).0, draw(s).1)
  }

  /** What a caller makes of the server's answer. */
  function Heard(answer: Answer, fate: Fate, lifetime: Duration): Result<TokenResponse, TokenError> {
    if !fate.Arrived? then Err(NoAnswer)
    else match answer
      case Grant(issued) =>
        if issued.refreshToken.None? then Err(NoAnswer)
        else Ok(TokenResponse(issued.accessToken, issued.refreshToken.value, AsSecs(lifetime)))
      case _ => Err(RefusedGrant)
  }

  class TokenClient {
    const clientId: Text
    var server: Server

    constructor (clientId: Text, server: Server)
      ensures this.clientId == clientId && this.server == server
    {
      this.clientId := clientId;
      this.server := server;
    }

    /** One request; the clock moves on while a granted answer travels. */
    method Send(op: Op, c: Conditions) returns (r: Result<TokenResponse, TokenError>)
      modifies this
      ensures c.fate.NeverSent? ==> server == old(server) && r == Err(NoAnswer)
      ensures !c.fate.NeverSent? ==>
                var (served, answer) := Step(old(server), op);
                && r == Heard(answer, c.fate, old(server).store.accessTokenLifetime)
                && server == if r.Ok? then Step(served, AdvanceOp(c.delay)).0 else served
    {
      if c.fate.NeverSent? {
        return Err(NoAnswer);
      }
      var (served, answer) := Step(server, op);
      r := Heard(answer, c.fate, server.store.accessTokenLifetime);
      server := if r.Ok? then Step(served, AdvanceOp(c.delay)).0 else served;
    }
  }

  // ---- single actions of the protocol ----

  /** Draws that are new are draws the protocol allows. */
  lemma NewDrawsAreDrawn(w: Server, op: Op, draw: Oracle)
    requires NeverRepeats(draw)
    requires (op.RefreshOp? || op.RedeemOp?) && (op.freshAccess, op.freshRefresh) == draw(w.store)
    ensures Drawn(w, op)
  {
  }

  /** One action after a run. */
  ghost method Act(start: Sys, before: Sys, action: Action) returns (end: Sys)
    requires RefreshProtocol.Leads(start, before) && Enabled(before, action)
    ensures RefreshProtocol.Leads(start, end) && end == Next(before, action)
  {
    RefreshProtocol.LeadsFurther(start, before, action);
    end := Next(before, action);
  }

  /** The clock moves on while an answer travels. */
  ghost method Travel(start: Sys, before: Sys, delay: Duration) returns (end: Sys)
    requires RefreshProtocol.Leads(start, before)
    ensures RefreshProtocol.Leads(start, end)
    ensures end == before.(server := Step(before.server, AdvanceOp(delay)).0)
  {
    end := Act(start, before, Others(AdvanceOp(delay)));
  }

  /** The API request of a caller, in terms of the response. */
  ghost method Request(start: Sys, calling: Sys, i: nat, response: ApiResponse) returns (end: Sys)
    requires RefreshProtocol.Leads(start, calling) && At(calling, i) && calling.callers[i].pc.Calling?
    ensures RefreshProtocol.Leads(start, end) && At(end, i)
    ensures end.me == calling.me && end.epoch == calling.epoch && end.server == calling.server
    ensures end.disk == calling.disk && end.lock == calling.lock
    ensures var before, after := calling.callers[i], end.callers[i];
            && after.kind == before.kind && after.apiRequests == before.apiRequests + 1
            && after.pc == if !Unauthorized(response) then Returned(Conclude(response))
                           else if before.apiRequests == 0 then Waiting(Rejected(before.pc.token))
                           else Returned(Failed(SessionExpired))
  {
    end := Act(start, calling, Api(i, response));
  }

  lemma ResponseMeans(response: ApiResponse)
    ensures Unauthorized(response) <==> Callers.Is401(response)
    ensures !Callers.Is401(response) ==> Callers.Means(Conclude(response), response)
  {
  }

  /** Where the protocol is after a caller's refresh request, in terms of what the caller heard. */
  ghost method Attempt(start: Sys, sending: Sys, i: nat, op: Op, fate: Fate) returns (end: Sys)
    requires RefreshProtocol.Leads(start, sending) && At(sending, i) && sending.callers[i].pc.Sending? && op.RefreshOp?
    requires op == RefreshRequest(sending, sending.callers[i].pc.stored, op.freshAccess, op.freshRefresh)
    requires Drawn(sending.server, op)
    ensures RefreshProtocol.Leads(start, end)
    ensures var r := Heard(Step(sending.server, op).1, fate, sending.server.store.accessTokenLifetime);
            var pc := sending.callers[i].pc;
            && end.disk == sending.disk && end.me == sending.me && end.epoch == sending.epoch
            && end.server == (if fate.NeverSent? then sending.server else Step(sending.server, op).0)
            && end.lock == (if r.Ok? then sending.lock else None)
            && At(end, i)
            && end.callers[i].kind == sending.callers[i].kind
            && end.callers[i].apiRequests == sending.callers[i].apiRequests
            && end.callers[i].refreshRequests == sending.callers[i].refreshRequests + 1
            && end.callers[i].pc == if r.Ok? then Received(pc.goal, pc.stored, r.value)
                                    else Returned(Failed(RefreshFailure(r.error)))
  {
    end := Act(start, sending, Action.Exchange(i, op.freshAccess, op.freshRefresh, fate));
  }

  lemma TradeHeard(sys: Sys, i: nat, op: Op, fate: Fate)
    requires At(sys, i) && op.RedeemOp?
    ensures var r := Heard(Step(sys.server, op).1, fate, sys.server.store.accessTokenLifetime);
            var pc := if r.Ok? then Traded(r.value) else Returned(Failed(TokenRequest(r.error)));
            DoTrade(sys, i, op, fate) == Goto(if fate.NeverSent? then sys else Serve(sys, op), i, pc)
  {
  }

  /** Where a call leaves its caller. */
  function Finish(caller: Caller, r: Result<Credential, Failure>): Pc {
    match r
    case Ok(token) => Deliver(caller, token)
    case Err(failure) => Returned(Failed(failure))
  }

  type FileRead = Result<Option<Tokens>, ()>

  /** What a refresh comes to, by the server's answer: the session is over exactly when the server
      refused, and an answer is returned only if it is in the file, counted from its arrival. */
  predicate RefreshResult(answer: Result<TokenResponse, TokenError>, before: FileRead, after: FileRead, now: nat,
                          r: Result<Credential, Failure>) {
    match answer
    case Err(RefusedGrant) => r == Err(SessionExpired) && after == before
    case Err(NoAnswer) => r == Err(TokenRequest(NoAnswer)) && after == before
    case Ok(response) => SaveResultIs(response, before, after, now, r)
  }

  predicate SaveResultIs(response: TokenResponse, before: FileRead, after: FileRead, now: nat,
                         r: Result<Credential, Failure>) {
    var saved := Ok(Some(FromResponse(response, now)));
    || (r == Ok(response.accessToken) && after == saved)
    || (r == Err(Storage) && (after == before || after == saved))
  }

  lemma FailureOf(error: TokenError, file: FileRead, now: nat)
    ensures RefreshResult(Err(error), file, file, now, Err(RefreshFailure(error)))
  {
  }

  /** The stored tokens call for a refresh: their time has come, or they are still the rejected ones. */
  predicate CallsForRefresh(goal: Goal, file: FileRead, now: nat) {
    && file.Ok? && file.value.Some?
    && match goal
       case Expired => file.value.value.expiresAt <= now
       case Rejected(token) => file.value.value.accessToken == token
  }

  /** What a call without a refresh makes of the file. */
  predicate FromFile(file: FileRead, r: Result<Credential, Failure>) {
    match file
    case Ok(Some(tokens)) => r == Ok(tokens.accessToken)
    case Ok(None) => r == Err(NotLoggedIn)
    case Err(_) => r == Err(Storage)
  }

  /** The call is over, and the protocol is where its caller says. */
  predicate Ended(caller: Caller, end: Sys, i: nat, r: Result<Credential, Failure>, refreshes: nat) {
    && At(end, i) && end.lock == None
    && end.callers[i].kind == caller.kind && end.callers[i].apiRequests == caller.apiRequests
    && end.callers[i].refreshRequests == caller.refreshRequests + refreshes
    && end.callers[i].pc == Finish(caller, r)
  }

  class AuthManager {
    const store: TokenFile.TokenStore
    const client: TokenClient
    const epoch: nat

    constructor (store: TokenFile.TokenStore, client: TokenClient, epoch: nat)
      ensures this.store == store && this.client == client && this.epoch == epoch
    {
      this.store := store;
      this.client := client;
      this.epoch := epoch;
    }

    /** The objects are in the state of the protocol. */
    ghost predicate Mirrors(sys: Sys)
      reads client, store.fs
    {
      && sys.me == client.clientId && sys.epoch == epoch && sys.server == client.server
      && TokenFile.Read(store.fs.disk) == Ok(sys.disk)
    }

    ghost predicate FileOk()
      reads store.fs
    {
      exists allowed :: TokenFile.Good(store.fs.disk, allowed)
    }

    function ClockNow(): nat
      reads client
    {
      ClientSecs(epoch, client.server.now)
    }

    method Load() returns (r: Result<Tokens, Failure>)
      ensures match TokenFile.Read(store.fs.disk)
              case Ok(Some(tokens)) => r == Ok(tokens)
              case Ok(None) => r == Err(NotLoggedIn)
              case Err(_) => r == Err(Storage)
    {
      var stored := store.Load();
      match stored
      case Ok(Some(tokens)) => r := Ok(tokens);
      case Ok(None) => r := Err(NotLoggedIn);
      case Err(_) => r := Err(Storage);
    }

    /** Saves; the file ends up with the new tokens or as it was. */
    method Save(tokens: Tokens, faults: seq<bool>) returns (ok: bool)
      requires FileOk() && |faults| == 7
      modifies store.fs
      ensures FileOk()
      ensures var now, before := TokenFile.Read(store.fs.disk), TokenFile.Read(old(store.fs.disk));
              (now == before || now == Ok(Some(tokens))) && (ok ==> now == Ok(Some(tokens)))
    {
      ghost var disk := store.fs.disk;
      ghost var allowed :| TokenFile.Good(disk, allowed);
      ok := store.Save(tokens, faults);
      TokenFile.SaveIsAtomic(disk, tokens, faults, allowed);
      assert TokenFile.Good(store.fs.disk, allowed + {Some(tokens)});
    }

    /** How a save went, seen from outside. */
    ghost function ResultOf(tokens: Tokens, ok: bool): SaveResult
      reads store.fs
    {
      if ok then SaveResult.Done
      else if TokenFile.Read(store.fs.disk) == Ok(Some(tokens)) then Unconfirmed else Unchanged
    }

    /** What the server answers to a refresh, and what the caller makes of it. */
    function RefreshAnswer(file: FileRead, c: Conditions): Result<TokenResponse, TokenError>
      requires file.Ok? && file.value.Some?
      reads client
    {
      var s := client.server.store;
      var op := RefreshOf(client.clientId, file.value.value.refreshToken, s, c.draw);
      Heard(Step(client.server, op).1, c.fate, s.accessTokenLifetime)
    }

    /** The critical section: load, re-check, and refresh exactly if it is still needed. */
    method RefreshIf(goal: Goal, c: Conditions, ghost start: Sys, ghost i: nat)
      returns (r: Result<Credential, Failure>, ghost end: Sys)
      requires Mirrors(start) && start.lock == None && FileOk() && Possible(c)
      requires At(start, i) && start.callers[i].pc == Waiting(goal)
      modifies client, store.fs
      ensures Mirrors(end) && FileOk() && RefreshProtocol.Leads(start, end)
      ensures var file := old(TokenFile.Read(store.fs.disk));
              if CallsForRefresh(goal, file, old(ClockNow())) then
                && Ended(start.callers[i], end, i, r, 1)
                && RefreshResult(old(RefreshAnswer(TokenFile.Read(store.fs.disk), c)), file,
                                 TokenFile.Read(store.fs.disk), ClockNow(), r)
              else
                && Ended(start.callers[i], end, i, r, 0) && FromFile(file, r)
                && client.server == old(client.server) && store.fs.disk == old(store.fs.disk)
    {
      RefreshProtocol.LeadsNowhere(start);
      ghost var locked := Act(start, start, Acquire(i));
      end := Act(start, locked, Check(i));

      var stored := Load();
      if stored.Err? {
        return Err(stored.error), end;
      }
      if !NeedsRefresh(goal, stored.value, ClockNow()) {
        return Ok(stored.value.accessToken), end;
      }
      r, end := RefreshStored(goal, stored.value, c, start, end, i);
    }

    /** Sends the request and, with an answer, saves it. */
    method RefreshStored(goal: Goal, stored: Tokens, c: Conditions,
                         ghost start: Sys, ghost sending: Sys, ghost i: nat)
      returns (r: Result<Credential, Failure>, ghost end: Sys)
      requires Mirrors(sending) && FileOk() && Possible(c) && RefreshProtocol.Leads(start, sending)
      requires At(sending, i) && sending.callers[i].pc == Sending(goal, stored) && sending.lock == Some(i)
      modifies client, store.fs
      ensures Mirrors(end) && FileOk() && RefreshProtocol.Leads(start, end) && Ended(sending.callers[i], end, i, r, 1)
      ensures RefreshResult(old(RefreshAnswer(Ok(Some(stored)), c)), old(TokenFile.Read(store.fs.disk)),
                            TokenFile.Read(store.fs.disk), ClockNow(), r)
    {
      var response;
      response, end := Exchange(goal, stored, c, start, sending, i);
      if response.Err? {
        FailureOf(response.error, TokenFile.Read(store.fs.disk), ClockNow());
        return Err(RefreshFailure(response.error)), end;
      }
      r, end := SaveAnswer(response.value, c.faults, start, end, i);
    }

    /** The request and its answer, if one arrives. */
    method Exchange(goal: Goal, stored: Tokens, c: Conditions, ghost start: Sys, ghost sending: Sys, ghost i: nat)
      returns (response: Result<TokenResponse, TokenError>, ghost end: Sys)
      requires Mirrors(sending) && Possible(c) && RefreshProtocol.Leads(start, sending)
      requires At(sending, i) && sending.callers[i].pc == Sending(goal, stored) && sending.lock == Some(i)
      modifies client
      ensures response == old(RefreshAnswer(Ok(Some(stored)), c))
      ensures Mirrors(end) && RefreshProtocol.Leads(start, end) && At(end, i)
      ensures response.Err? ==> Ended(sending.callers[i], end, i, Err(RefreshFailure(response.error)), 1)
      ensures response.Ok? ==>
                && end.callers[i] == sending.callers[i].(pc := Received(goal, stored, response.value),
                     refreshRequests := sending.callers[i].refreshRequests + 1)
                && end.lock == Some(i)
    {
      var op := RefreshOf(client.clientId, stored.refreshToken, client.server.store, c.draw);
      NewDrawsAreDrawn(client.server, op, c.draw);
      end := Attempt(start, sending, i, op, c.fate);
      response := client.Send(op, c);
      if response.Ok? {
        end := Travel(start, end, c.delay);
      }
    }

    /** Saves the answer before anyone gets to use it. */
    method SaveAnswer(response: TokenResponse, faults: seq<bool>, ghost start: Sys, ghost received: Sys, ghost i: nat)
      returns (r: Result<Credential, Failure>, ghost end: Sys)
      requires Mirrors(received) && FileOk() && |faults| == 7 && RefreshProtocol.Leads(start, received)
      requires At(received, i) && received.callers[i].pc.Received? && received.callers[i].pc.answer == response
      requires received.lock == Some(i)
      modifies store.fs
      ensures Mirrors(end) && FileOk() && RefreshProtocol.Leads(start, end) && Ended(received.callers[i], end, i, r, 0)
      ensures SaveResultIs(response, old(TokenFile.Read(store.fs.disk)), TokenFile.Read(store.fs.disk), ClockNow(), r)
    {
      var tokens := FromResponse(response, ClockNow());
      var ok := Save(tokens, faults);
      end := Act(start, received, RefreshMachine.Save(i, ResultOf(tokens, ok)));
      if !ok {
        return Err(Storage), end;
      }
      end := Act(start, end, Release(i));
      r := Ok(tokens.accessToken);
    }

    /** `get_valid_token`, alone: a first look without the lock, then the critical section. */
    method GetValidToken(c: Conditions, ghost start: Sys, ghost i: nat)
      returns (r: Result<Credential, Failure>, ghost end: Sys)
      requires Mirrors(start) && start.lock == None && FileOk() && Possible(c)
      requires At(start, i) && start.callers[i].pc == Begin
      modifies client, store.fs
      ensures Mirrors(end) && FileOk() && RefreshProtocol.Leads(start, end)
      ensures var file := old(TokenFile.Read(store.fs.disk));
              if CallsForRefresh(Expired, file, old(ClockNow())) then
                && Ended(start.callers[i], end, i, r, 1)
                && RefreshResult(old(RefreshAnswer(TokenFile.Read(store.fs.disk), c)), file,
                                 TokenFile.Read(store.fs.disk), ClockNow(), r)
              else
                && Ended(start.callers[i], end, i, r, 0) && FromFile(file, r)
                && client.server == old(client.server) && store.fs.disk == old(store.fs.disk)
    {
      RefreshProtocol.LeadsNowhere(start);
      end := Act(start, start, RefreshMachine.Load(i));

      var tokens := Load();
      if tokens.Err? {
        return Err(tokens.error), end;
      }
      if !IsExpired(tokens.value, ClockNow()) {
        return Ok(tokens.value.accessToken), end;
      }
      ghost var waiting := end;
      r, end := RefreshIf(Expired, c, waiting, i);
      RefreshProtocol.LeadsThrough(start, waiting, end);
    }

    /** `refresh_after_unauthorized`, alone. */
    method RefreshAfterUnauthorized(rejected: Credential, c: Conditions, ghost start: Sys, ghost i: nat)
      returns (r: Result<Credential, Failure>, ghost end: Sys)
      requires Mirrors(start) && start.lock == None && FileOk() && Possible(c)
      requires At(start, i) && start.callers[i].pc == Waiting(Rejected(rejected))
      modifies client, store.fs
      ensures Mirrors(end) && FileOk() && RefreshProtocol.Leads(start, end)
      ensures var file := old(TokenFile.Read(store.fs.disk));
              if CallsForRefresh(Rejected(rejected), file, old(ClockNow())) then
                && Ended(start.callers[i], end, i, r, 1)
                && RefreshResult(old(RefreshAnswer(TokenFile.Read(store.fs.disk), c)), file,
                                 TokenFile.Read(store.fs.disk), ClockNow(), r)
              else
                && Ended(start.callers[i], end, i, r, 0) && FromFile(file, r)
                && client.server == old(client.server) && store.fs.disk == old(store.fs.disk)
    {
      r, end := RefreshIf(Rejected(rejected), c, start, i);
    }

    /** What the server answers to a login, and what the caller makes of it. */
    function LoginAnswer(request: CodeRedemption, c: Conditions): Result<TokenResponse, TokenError>
      reads client
    {
      var s := client.server.store;
      Heard(Step(client.server, RedeemOf(request, s, c.draw)).1, c.fate, s.accessTokenLifetime)
    }

    /** `complete_login`: nothing is saved unless the server grants the code, and then exactly its
        answer, counted from its arrival. It may run while another caller holds the lock. */
    method CompleteLogin(request: CodeRedemption, c: Conditions, ghost start: Sys, ghost i: nat)
      returns (r: Result<(), Failure>, ghost end: Sys)
      requires Mirrors(start) && FileOk() && Possible(c)
      requires At(start, i) && start.callers[i].kind == Kind.CompleteLogin(request) && start.callers[i].pc == Trading
      requires request.clientId == client.clientId
      modifies client, store.fs
      ensures Mirrors(end) && FileOk() && RefreshProtocol.Leads(start, end) && At(end, i)
      ensures end.callers[i].pc == Returned(match r case Ok(_) => LoggedIn case Err(failure) => Failed(failure))
      ensures var answer, file := old(LoginAnswer(request, c)), TokenFile.Read(store.fs.disk);
              match answer
              case Err(error) => r == Err(TokenRequest(error)) && file == old(TokenFile.Read(store.fs.disk))
              case Ok(response) =>
                && (r.Ok? || r == Err(Storage))
                && (r.Ok? ==> file == Ok(Some(FromResponse(response, ClockNow()))))
                && (r.Err? ==>
                      || file == old(TokenFile.Read(store.fs.disk))
                      || file == Ok(Some(FromResponse(response, ClockNow()))))
    {
      var op := RedeemOf(request, client.server.store, c.draw);
      NewDrawsAreDrawn(client.server, op, c.draw);
      TradeHeard(start, i, op, c.fate);
      RefreshProtocol.LeadsNowhere(start);
      end := Act(start, start, Trade(i, op.freshAccess, op.freshRefresh, c.fate));
      var response := client.Send(op, c);
      if response.Err? {
        return Err(TokenRequest(response.error)), end;
      }
      end := Travel(start, end, c.delay);
      r, end := SaveLoginAnswer(response.value, c.faults, start, end, i);
    }

    /** Saves a login's answer. */
    method SaveLoginAnswer(response: TokenResponse, faults: seq<bool>,
                           ghost start: Sys, ghost traded: Sys, ghost i: nat)
      returns (r: Result<(), Failure>, ghost end: Sys)
      requires Mirrors(traded) && FileOk() && |faults| == 7 && RefreshProtocol.Leads(start, traded)
      requires At(traded, i) && traded.callers[i].pc == Traded(response)
      modifies store.fs
      ensures Mirrors(end) && FileOk() && RefreshProtocol.Leads(start, end) && At(end, i)
      ensures end.callers[i].pc == Returned(match r case Ok(_) => LoggedIn case Err(failure) => Failed(failure))
      ensures var file, saved := TokenFile.Read(store.fs.disk), FromResponse(response, ClockNow());
              && (r.Ok? || r == Err(Storage))
              && (r.Ok? ==> file == Ok(Some(saved)))
              && (r.Err? ==> file == old(TokenFile.Read(store.fs.disk)) || file == Ok(Some(saved)))
    {
      var tokens := FromResponse(response, ClockNow());
      var ok := Save(tokens, faults);
      end := Act(start, traded, SaveLogin(i, ResultOf(tokens, ok)));
      r := if ok then Ok(()) else Err(Storage);
    }
  }

  // ---- API requests ----

  class ApiClient {
    const auth: AuthManager

    constructor (auth: AuthManager)
      ensures this.auth == auth
    {
      this.auth := auth;
    }

    /** `get_json`: one refresh and one retry on a 401; any other response is the last. `sent`
        counts the API requests. */
    method GetJson(validPath: bool, first: ApiResponse, second: ApiResponse, c1: Conditions, c2: Conditions,
                   ghost start: Sys, ghost i: nat)
      returns (outcome: Outcome, sent: nat, ghost end: Sys)
      requires auth.Mirrors(start) && start.lock == None && auth.FileOk() && Possible(c1) && Possible(c2)
      requires At(start, i) && start.callers[i] == Caller(Kind.GetJson, Begin, 0, 0)
      modifies auth.client, auth.store.fs
      ensures !validPath ==> outcome == Failed(InvalidPath) && sent == 0 && end == start
      ensures auth.Mirrors(end) && auth.FileOk() && RefreshProtocol.Leads(start, end) && At(end, i)
      ensures validPath ==> end.callers[i].pc == Returned(outcome)
      ensures sent == end.callers[i].apiRequests && sent <= 2
      ensures sent == 0 ==> outcome.Failed?
      ensures sent == 1 ==> (if Callers.Is401(first) then outcome.Failed? else Callers.Means(outcome, first))
      ensures sent == 2 ==> Callers.Is401(first)
      ensures sent == 2 ==> if Callers.Is401(second) then outcome == Failed(SessionExpired)
                            else Callers.Means(outcome, second)
    {
      sent, end := 0, start;
      RefreshProtocol.LeadsNowhere(start);
      if !validPath {
        return Failed(InvalidPath), sent, end;
      }
      var token;
      token, end := auth.GetValidToken(c1, start, i);
      if token.Err? {
        return Failed(token.error), sent, end;
      }
      var response := first;
      end := Request(start, end, i, response);
      sent := 1;
      ResponseMeans(response);
      if !Unauthorized(response) {
        return Conclude(response), sent, end;
      }
      ghost var waiting := end;
      outcome, sent, end := Retry(token.value, second, c2, waiting, i);
      RefreshProtocol.LeadsThrough(start, waiting, end);
    }

    /** The second half, after a 401: a refresh, and the request once more. */
    method Retry(rejected: Credential, response: ApiResponse, c: Conditions, ghost start: Sys, ghost i: nat)
      returns (outcome: Outcome, sent: nat, ghost end: Sys)
      requires auth.Mirrors(start) && start.lock == None && auth.FileOk() && Possible(c)
      requires At(start, i) && start.callers[i].pc == Waiting(Rejected(rejected))
      requires start.callers[i].kind.GetJson? && start.callers[i].apiRequests == 1
      modifies auth.client, auth.store.fs
      ensures auth.Mirrors(end) && auth.FileOk() && RefreshProtocol.Leads(start, end) && At(end, i)
      ensures end.callers[i].pc == Returned(outcome) && end.callers[i].apiRequests == sent
      ensures sent == 1 ==> outcome.Failed?
      ensures sent == 1 || sent == 2
      ensures sent == 2 ==> if Callers.Is401(response) then outcome == Failed(SessionExpired)
                            else Callers.Means(outcome, response)
    {
      var token;
      sent := 1;
      token, end := auth.RefreshAfterUnauthorized(rejected, c, start, i);
      if token.Err? {
        return Failed(token.error), sent, end;
      }
      end := Request(start, end, i, response);
      sent := 2;
      ResponseMeans(response);
      outcome := if Unauthorized(response) then Failed(SessionExpired) else Conclude(response);
    }
  }
}
