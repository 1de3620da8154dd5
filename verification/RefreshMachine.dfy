/** The client's refresh protocol run against the authorization server: any number of callers of
    `get_valid_token`, `refresh_after_unauthorized`, `get_json` and `complete_login`, interleaved
    step by step with one another, with the clock and with everybody else's requests.

    A caller is a program counter. One action is what happens between two points where the
    caller can be overtaken: reading the token file, taking the lock, one request, one save. */
module RefreshMachine {
  import opened Wrappers
  import opened Bytes
  import opened Time
  import opened StoreModel
  import opened Tokens

  /** Why a refresh was asked for. */
  datatype Goal = Expired | Rejected(token: Credential)

  /** A refused code or refresh token, or a request without an answer. */
  datatype TokenError = RefusedGrant | NoAnswer

  datatype Failure =
    | NotLoggedIn
    | SessionExpired
    | Storage
    | TokenRequest(error: TokenError)
    | ApiTransport
    | BadStatus(status: nat)
    | BadBody
    | InvalidPath

  datatype Outcome = Token(token: Credential) | Json | LoggedIn | Failed(failure: Failure)

  datatype Pc =
    | Begin                                                    // about to load without the lock
    | Waiting(goal: Goal)                                      // wants `refresh_lock`
    | Locked(goal: Goal)                                       // holds it, about to load and re-check
    | Sending(goal: Goal, stored: Tokens)                      // about to send the refresh request
    | Received(goal: Goal, stored: Tokens, answer: TokenResponse) // answered, about to save
    | Saved(token: Credential)                                 // saved, about to let go of the lock
    | Calling(token: Credential)                               // about to send the API request
    | Trading                                                  // login: about to send the code
    | Traded(answer: TokenResponse)                            // login: answered, about to save
    | Returned(outcome: Outcome)

  datatype Kind =
    | GetValidToken
    | RefreshAfterUnauthorized(rejected: Credential)
    | GetJson
    | CompleteLogin(request: CodeRedemption)

  datatype Caller = Caller(kind: Kind, pc: Pc, apiRequests: nat, refreshRequests: nat)

  /** A refresh that the server granted: what asked for it and the access token it replaces. */
  datatype Exchanged = Exchanged(goal: Goal, replaced: Credential)

  /** `saved` and `filed` are the access and refresh tokens that were ever in the file, `lost` the
      refresh tokens that are no more use to this client: exchanged for an answer that never got
      to the file, or taken by a request that is not the protocol's. `log` holds the granted
      refreshes. */
  datatype Sys = Sys(
    me: Text,
    epoch: nat,
    server: Server,
    disk: Option<Tokens>,
    lock: Option<nat>,
    callers: seq<Caller>,
    saved: set<Credential>,
    filed: set<Credential>,
    lost: set<Credential>,
    log: seq<Exchanged>)

  datatype Fate = Arrived | NeverSent | AnswerLost

  /** A save can fail before the new file has its name, or after. */
  datatype SaveResult = Done | Unchanged | Unconfirmed

  datatype Body = Broken | Undecodable | Decodable

  datatype ApiResponse = NoResponse | Response(status: nat, body: Body)

  datatype Action =
    | Spawn(kind: Kind)
    | Load(i: nat)
    | Acquire(i: nat)
    | Check(i: nat)
    | Exchange(i: nat, freshAccess: Credential, freshRefresh: Credential, fate: Fate)
    | Save(i: nat, result: SaveResult)
    | Release(i: nat)
    | Api(i: nat, response: ApiResponse)
    | Trade(i: nat, freshAccess: Credential, freshRefresh: Credential, fate: Fate)
    | SaveLogin(i: nat, result: SaveResult)
    | Others(op: Op)

  function Now(sys: Sys): nat {
    ClientSecs(sys.epoch, sys.server.now)
  }

  predicate NeedsRefresh(goal: Goal, stored: Tokens, now: nat) {
    match goal
    case Expired => IsExpired(stored, now)
    case Rejected(token) => stored.accessToken == token
  }

  predicate Holds(pc: Pc) {
    pc.Locked? || pc.Sending? || pc.Received? || pc.Saved?
  }

  function Goto(sys: Sys, i: nat, pc: Pc): Sys
    requires At(sys, i)
  {
    sys.(callers := sys.callers[i := sys.callers[i].(pc := pc)])
  }

  function Unlock(sys: Sys): Sys { sys.(lock := None) }

  /** Where a caller goes once it has a token: `get_json` uses it, the others return it. */
  function Deliver(caller: Caller, token: Credential): Pc {
    if caller.kind.GetJson? then Calling(token) else Returned(Token(token))
  }

  function RefreshRequest(sys: Sys, stored: Tokens, access: Credential, refresh: Credential): Op {
    RefreshOp(sys.me, stored.refreshToken, access, refresh)
  }

  predicate At(sys: Sys, i: nat) {
    i < |sys.callers|
  }

  // ---- what can happen ----

  /** An answer that is not in the file yet. */
  function Owed(pc: Pc): Option<TokenResponse> {
    match pc
    case Received(_, _, answer) => Some(answer)
    case Traded(answer) => Some(answer)
    case _ => None
  }

  /** The request takes the refresh token from this client: it presents it in the client's name, or
      replays in the client's name the code that the token descends from. */
  predicate Harms(s: StoreState, me: Text, op: Op, t: Credential) {
    && t in s.refreshTokens
    && match op
       case RefreshOp(clientId, token, _, _) => clientId == me && token == t
       case RedeemOp(request, _, _) =>
         && request.clientId == me && request.code in s.codes
         && s.codes[request.code].clientId == me && s.codes[request.code].redeemed
         && s.codes[request.code].family == s.refreshTokens[t].family
       case _ => false
  }

  /** The server answers a request that is not a refresh of a caller. */
  function Serve(sys: Sys, op: Op): Sys {
    var harmed := set t | t in sys.server.store.refreshTokens && Harms(sys.server.store, sys.me, op, t);
    sys.(server := Step(sys.server, op).0, lost := sys.lost + harmed)
  }

  predicate Enabled(sys: Sys, action: Action) {
    match action
    case Spawn(kind) => kind.CompleteLogin? ==> kind.request.clientId == sys.me
    case Load(i) => At(sys, i) && sys.callers[i].pc.Begin?
    case Acquire(i) => At(sys, i) && sys.callers[i].pc.Waiting? && sys.lock.None?
    case Check(i) => At(sys, i) && sys.callers[i].pc.Locked?
    case Exchange(i, access, refresh, fate) =>
      && At(sys, i) && sys.callers[i].pc.Sending?
      && (fate.NeverSent? || Drawn(sys.server, RefreshRequest(sys, sys.callers[i].pc.stored, access, refresh)))
    case Save(i, _) => At(sys, i) && sys.callers[i].pc.Received?
    case Release(i) => At(sys, i) && sys.callers[i].pc.Saved?
    case Api(i, _) => At(sys, i) && sys.callers[i].pc.Calling?
    case Trade(i, access, refresh, fate) =>
      && At(sys, i) && sys.callers[i].pc.Trading? && sys.callers[i].kind.CompleteLogin?
      && (fate.NeverSent? || Drawn(sys.server, RedeemOp(sys.callers[i].kind.request, access, refresh)))
    case SaveLogin(i, _) => At(sys, i) && sys.callers[i].pc.Traded?
    case Others(op) => Drawn(sys.server, op)
  }

  function Respond(sys: Sys, access: Credential, refresh: Credential): TokenResponse {
    TokenResponse(access, refresh, AsSecs(sys.server.store.accessTokenLifetime))
  }

  function DoLoad(sys: Sys, i: nat): Sys
    requires At(sys, i)
  {
    if sys.disk.None? then Goto(sys, i, Returned(Failed(NotLoggedIn)))
    else if !IsExpired(sys.disk.value, Now(sys)) then
      Goto(sys, i, Deliver(sys.callers[i], sys.disk.value.accessToken))
    else Goto(sys, i, Waiting(Expired))
  }

  function DoCheck(sys: Sys, i: nat): Sys
    requires At(sys, i) && sys.callers[i].pc.Locked?
  {
    var goal := sys.callers[i].pc.goal;
    if sys.disk.None? then Unlock(Goto(sys, i, Returned(Failed(NotLoggedIn))))
    else if !NeedsRefresh(goal, sys.disk.value, Now(sys)) then
      Unlock(Goto(sys, i, Deliver(sys.callers[i], sys.disk.value.accessToken)))
    else Goto(sys, i, Sending(goal, sys.disk.value))
  }

  /** A refused refresh means that the session is over; a refresh without an answer is an error. */
  function RefreshFailure(error: TokenError): Failure {
    if error.RefusedGrant? then SessionExpired else TokenRequest(error)
  }

  function DoExchange(sys: Sys, i: nat, access: Credential, refresh: Credential, fate: Fate): Sys
    requires At(sys, i) && sys.callers[i].pc.Sending?
  {
    var caller := sys.callers[i];
    var goal, stored := caller.pc.goal, caller.pc.stored;
    var counted := sys.(callers := sys.callers[i := caller.(refreshRequests := caller.refreshRequests + 1)]);
    var silence := Returned(Failed(RefreshFailure(NoAnswer)));
    if fate.NeverSent? then Unlock(Goto(counted, i, silence))
    else
      var (server', answer) := Step(sys.server, RefreshRequest(sys, stored, access, refresh));
      var served := counted.(server := server');
      if answer.Grant? then
        var logged := served.(log := sys.log + [Exchanged(goal, stored.accessToken)]);
        if fate.AnswerLost? then Unlock(Goto(logged, i, silence)).(lost := sys.lost + {stored.refreshToken})
        else Goto(logged, i, Received(goal, stored, Respond(sys, access, refresh)))
      else if fate.AnswerLost? then Unlock(Goto(served, i, silence))
      else Unlock(Goto(served, i, Returned(Failed(RefreshFailure(RefusedGrant)))))
  }

  /** The file holds the answer. */
  function File(sys: Sys, answer: TokenResponse): Sys {
    var tokens := FromResponse(answer, Now(sys));
    sys.(disk := Some(tokens),
         saved := sys.saved + {tokens.accessToken},
         filed := sys.filed + {tokens.refreshToken})
  }

  function DoSave(sys: Sys, i: nat, result: SaveResult): Sys
    requires At(sys, i) && sys.callers[i].pc.Received?
  {
    var pc := sys.callers[i].pc;
    match result
    case Done => Goto(File(sys, pc.answer), i, Saved(pc.answer.accessToken))
    case Unconfirmed => Unlock(Goto(File(sys, pc.answer), i, Returned(Failed(Storage))))
    case Unchanged =>
      Unlock(Goto(sys, i, Returned(Failed(Storage)))).(lost := sys.lost + {pc.stored.refreshToken})
  }

  /** What `get_json` makes of a response that is not a 401. */
  function Conclude(response: ApiResponse): Outcome {
    match response
    case NoResponse => Failed(ApiTransport)
    case Response(status, body) =>
      if body.Broken? then Failed(ApiTransport)
      else if !(200 <= status < 300) then Failed(BadStatus(status))
      else if body.Undecodable? then Failed(BadBody)
      else Json
  }

  predicate Unauthorized(response: ApiResponse) {
    response.Response? && response.status == 401
  }

  /** The first 401 asks for a refresh and a retry, the second one gives up. */
  function DoApi(sys: Sys, i: nat, response: ApiResponse): Sys
    requires At(sys, i) && sys.callers[i].pc.Calling?
  {
    var caller := sys.callers[i];
    var counted := sys.(callers := sys.callers[i := caller.(apiRequests := caller.apiRequests + 1)]);
    if !Unauthorized(response) then Goto(counted, i, Returned(Conclude(response)))
    else if caller.apiRequests == 0 then Goto(counted, i, Waiting(Rejected(caller.pc.token)))
    else Goto(counted, i, Returned(Failed(SessionExpired)))
  }

  /** `complete_login` does not take the lock. */
  function DoTrade(sys: Sys, i: nat, op: Op, fate: Fate): Sys
    requires At(sys, i) && op.RedeemOp?
  {
    var silence := Returned(Failed(TokenRequest(NoAnswer)));
    if fate.NeverSent? then Goto(sys, i, silence)
    else
      var served, answer := Serve(sys, op), Step(sys.server, op).1;
      if fate.AnswerLost? then Goto(served, i, silence)
      else if answer.Grant? then Goto(served, i, Traded(Respond(sys, op.freshAccess, op.freshRefresh)))
      else Goto(served, i, Returned(Failed(TokenRequest(RefusedGrant))))
  }

  function DoSaveLogin(sys: Sys, i: nat, result: SaveResult): Sys
    requires At(sys, i) && sys.callers[i].pc.Traded?
  {
    var answer := sys.callers[i].pc.answer;
    match result
    case Done => Goto(File(sys, answer), i, Returned(LoggedIn))
    case Unconfirmed => Goto(File(sys, answer), i, Returned(Failed(Storage)))
    case Unchanged => Goto(sys, i, Returned(Failed(Storage)))
  }

  function Start(kind: Kind): Pc {
    match kind
    case RefreshAfterUnauthorized(rejected) => Waiting(Rejected(rejected))
    case CompleteLogin(_) => Trading
    case _ => Begin
  }

  function Next(sys: Sys, action: Action): Sys
    requires Enabled(sys, action)
  {
    match action
    case Spawn(kind) => sys.(callers := sys.callers + [Caller(kind, Start(kind), 0, 0)])
    case Load(i) => DoLoad(sys, i)
    case Acquire(i) => Goto(sys, i, Locked(sys.callers[i].pc.goal)).(lock := Some(i))
    case Check(i) => DoCheck(sys, i)
    case Exchange(i, access, refresh, fate) => DoExchange(sys, i, access, refresh, fate)
    case Save(i, result) => DoSave(sys, i, result)
    case Release(i) => Unlock(Goto(sys, i, Deliver(sys.callers[i], sys.callers[i].pc.token)))
    case Api(i, response) => DoApi(sys, i, response)
    case Trade(i, access, refresh, fate) =>
      DoTrade(sys, i, RedeemOp(sys.callers[i].kind.request, access, refresh), fate)
    case SaveLogin(i, result) => DoSaveLogin(sys, i, result)
    case Others(op) => Serve(sys, op)
  }

  function Init(me: Text, epoch: nat, server: Server): Sys {
    Sys(me, epoch, server, None, None, [], {}, {}, {}, [])
  }

  ghost predicate Reachable(start: Sys, actions: seq<Action>, end: Sys)
    decreases |actions|
  {
    if actions == [] then start == end
    else Enabled(start, actions[0]) && Reachable(Next(start, actions[0]), actions[1..], end)
  }
}
