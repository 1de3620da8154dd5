/** What the refresh protocol keeps in every interleaving, and what follows: which refresh requests
    can be refused, how often a token is refreshed, and what was saved before it is used. */
module RefreshProtocol {
  import opened Wrappers
  import opened Bytes
  import opened StoreModel
  import opened StoreInvariant
  import opened Tokens
  import opened RefreshMachine
  import Runs

  // ---- the invariant ----

  /** Known to the server, owned by this client, unspent and not revoked. */
  predicate Usable(s: StoreState, me: Text, t: Credential) {
    && t in s.refreshTokens
    && s.refreshTokens[t].clientId == me
    && !s.refreshTokens[t].spent
    && s.refreshTokens[t].family !in s.revokedFamilies
  }

  predicate Spent(s: StoreState, t: Credential) {
    t in s.refreshTokens && s.refreshTokens[t].spent
  }

  /** The refresh token whose answer the holder of the lock has not saved yet. */
  function InFlight(sys: Sys): Option<Credential> {
    if sys.lock.Some? && At(sys, sys.lock.value) && sys.callers[sys.lock.value].pc.Received?
    then Some(sys.callers[sys.lock.value].pc.stored.refreshToken) else None
  }

  predicate Replaced(log: seq<Exchanged>, token: Credential) {
    exists k | 0 <= k < |log| :: log[k].replaced == token
  }

  predicate FromFile(sys: Sys, t: Tokens) {
    t.accessToken in sys.saved && t.refreshToken in sys.filed
  }

  predicate Gone(sys: Sys, t: Credential) {
    t in sys.lost || InFlight(sys) == Some(t)
  }

  /** Tokens from the file are good, unless their refresh token was exchanged or taken. */
  predicate HeldOk(sys: Sys, t: Tokens) {
    && FromFile(sys, t)
    && (Usable(sys.server.store, sys.me, t.refreshToken) <==> !Gone(sys, t.refreshToken))
    && (Usable(sys.server.store, sys.me, t.refreshToken) ==> !Replaced(sys.log, t.accessToken))
  }

  /** Two contents of the file are the same or have nothing in common. */
  predicate Linked(a: Tokens, b: Tokens) {
    a == b || (a.accessToken != b.accessToken && a.refreshToken != b.refreshToken)
  }

  predicate LinkedToFile(sys: Sys, t: Tokens) {
    sys.disk.Some? && Linked(sys.disk.value, t)
  }

  /** An answer that is new to the file, and good on the server unless somebody took it. */
  predicate PendingOk(sys: Sys, answer: TokenResponse) {
    && answer.accessToken in sys.server.store.accessTokens && answer.accessToken !in sys.saved
    && answer.refreshToken in sys.server.store.refreshTokens && answer.refreshToken !in sys.filed
    && (Usable(sys.server.store, sys.me, answer.refreshToken) <==> answer.refreshToken !in sys.lost)
  }

  predicate PcOk(sys: Sys, kind: Kind, pc: Pc) {
    match pc
    case Sending(goal, stored) =>
      HeldOk(sys, stored) && LinkedToFile(sys, stored) && GoalOk(goal, stored.accessToken)
    case Received(goal, stored, answer) =>
      && FromFile(sys, stored) && LinkedToFile(sys, stored)
      && Spent(sys.server.store, stored.refreshToken)
      && PendingOk(sys, answer)
    case Traded(answer) => PendingOk(sys, answer)
    case Saved(token) => token in sys.saved
    case Calling(token) => kind.GetJson? && token in sys.saved
    case Returned(Token(token)) => token in sys.saved
    case _ => true
  }

  predicate CallerOk(sys: Sys, i: nat)
    requires At(sys, i)
  {
    var caller := sys.callers[i];
    && (Holds(caller.pc) <==> sys.lock == Some(i))
    && CountsOk(caller) && KindOk(sys.me, caller)
    && PcOk(sys, caller.kind, caller.pc)
  }

  predicate GoalOk(goal: Goal, replaced: Credential) {
    goal.Rejected? ==> goal.token == replaced
  }

  /** Logins, and only they, trade codes: their own client's. */
  predicate KindOk(me: Text, caller: Caller) {
    && (caller.pc.Trading? || caller.pc.Traded? ==> caller.kind.CompleteLogin?)
    && (caller.kind.CompleteLogin? ==>
          && caller.kind.request.clientId == me
          && (caller.pc.Trading? || caller.pc.Traded? || caller.pc.Returned?))
  }

  predicate BeforeRefresh(pc: Pc) {
    pc.Begin? || pc.Waiting? || pc.Locked? || pc.Sending?
  }

  /** `get_json` refreshes at most once before each of its two API requests, the other calls
      refresh at most once. */
  predicate CountsOk(caller: Caller) {
    var before := BeforeRefresh(caller.pc);
    if caller.kind.GetJson? then
      && caller.apiRequests <= 2
      && caller.refreshRequests <= 2
      && (!caller.pc.Returned? ==>
            caller.apiRequests <= 1 && caller.refreshRequests <= caller.apiRequests + (if before then 0 else 1))
      && (caller.pc.Begin? ==> caller.apiRequests == 0)
    else
      && caller.apiRequests == 0
      && caller.refreshRequests <= (if before || caller.kind.CompleteLogin? then 0 else 1)
  }

  predicate DiskOk(sys: Sys) {
    sys.disk.Some? ==> HeldOk(sys, sys.disk.value)
  }

  predicate Apart(a: Pc, b: Pc) {
    Owed(a).Some? && Owed(b).Some? ==>
      && Owed(a).value.accessToken != Owed(b).value.accessToken
      && Owed(a).value.refreshToken != Owed(b).value.refreshToken
  }

  predicate AllApart(callers: seq<Caller>) {
    forall i, j | 0 <= i < j < |callers| :: Apart(callers[i].pc, callers[j].pc)
  }

  /** What was in the file is known to the server. */
  predicate FiledOk(sys: Sys) {
    && (forall t | t in sys.saved :: t in sys.server.store.accessTokens)
    && (forall t | t in sys.filed :: t in sys.server.store.refreshTokens)
    && (forall t | t in sys.lost ::
          t in sys.server.store.refreshTokens && !Usable(sys.server.store, sys.me, t))
  }

  predicate EntryOk(saved: set<Credential>, entry: Exchanged) {
    entry.replaced in saved && GoalOk(entry.goal, entry.replaced)
  }

  predicate LogOk(saved: set<Credential>, log: seq<Exchanged>) {
    && (forall k | 0 <= k < |log| :: EntryOk(saved, log[k]))
    && (forall k, l | 0 <= k < l < |log| :: log[k].replaced != log[l].replaced)
  }

  predicate LockOk(sys: Sys) {
    sys.lock.Some? ==> At(sys, sys.lock.value)
  }

  predicate Inv(sys: Sys) {
    && FiledOk(sys)
    && LogOk(sys.saved, sys.log)
    && DiskOk(sys)
    && LockOk(sys)
    && (forall i | 0 <= i < |sys.callers| :: CallerOk(sys, i))
    && AllApart(sys.callers)
  }

  lemma InitOk(me: Text, epoch: nat, server: Server)
    ensures Inv(Init(me, epoch, server))
  {
  }

  // ---- server steps ----

  /** A refresh token that is usable stays so unless its owner uses it or replays its code. */
  lemma StaysUsable(w: Server, me: Text, t: Credential, op: Op)
    requires Valid(w.store) && Drawn(w, op) && Usable(w.store, me, t)
    requires !Harms(w.store, me, op, t)
    ensures Usable(Step(w, op).0.store, me, t)
  {
    var entry := w.store.refreshTokens[t];
    assert HasRoot(w.store, entry.family, entry.clientId);
    var c :| RedeemedRoot(w.store, c, entry.family) && w.store.codes[c].clientId == me;
    Runs.RevokingStep(w, op, c);
    Runs.StepPersists(w, op);
    Runs.UnspentStep(w, op, t);
  }

  /** And one that is not usable, or that a request takes, never is again. */
  lemma StaysUnusable(w: Server, me: Text, t: Credential, op: Op)
    requires Drawn(w, op) && t in w.store.refreshTokens
    requires !Usable(w.store, me, t) || Harms(w.store, me, op, t)
    ensures t in Step(w, op).0.store.refreshTokens && !Usable(Step(w, op).0.store, me, t)
  {
    Runs.StepPersists(w, op);
    HandedDrawn(w, op);
    var before, after := w.store.refreshTokens[t], Step(w, op).0.store.refreshTokens[t];
    assert Runs.SameRefresh(before, after);
    assert after.clientId == before.clientId && after.family == before.family;
  }

  lemma StaysSpent(w: Server, t: Credential, op: Op)
    requires Drawn(w, op) && Spent(w.store, t)
    ensures Spent(Step(w, op).0.store, t)
  {
    Runs.StepPersists(w, op);
  }

  /** A refresh is granted exactly for a usable token. */
  lemma ExchangeStep(w: Server, me: Text, t: Credential, access: Credential, refresh: Credential)
    requires Valid(w.store) && Drawn(w, RefreshOp(me, t, access, refresh))
    ensures var (w', answer) := Step(w, RefreshOp(me, t, access, refresh));
            && (answer.Grant? <==> Usable(w.store, me, t))
            && (answer.Grant? ==>
                  && Spent(w'.store, t)
                  && access !in w.store.accessTokens && access in w'.store.accessTokens
                  && refresh !in w.store.refreshTokens && Usable(w'.store, me, refresh))
            && (!answer.Grant? ==> w' == w)
  {
    HandedDrawn(w, RefreshOp(me, t, access, refresh));
  }

  lemma TradeStep(w: Server, op: Op)
    requires Valid(w.store) && op.RedeemOp? && Drawn(w, op) && Step(w, op).1.Grant?
    ensures var w' := Step(w, op).0;
            && op.freshAccess !in w.store.accessTokens && op.freshAccess in w'.store.accessTokens
            && op.freshRefresh !in w.store.refreshTokens && Usable(w'.store, op.request.clientId, op.freshRefresh)
  {
    HandedDrawn(w, op);
    UnredeemedHasNone(w.store, op.request.code);
  }

  // ---- what a step leaves alone ----

  /** A step of one caller that leaves the server, the file and the log alone. */
  lemma LocalStep(sys: Sys, i: nat, caller: Caller, lock: Option<nat>)
    requires Inv(sys) && At(sys, i)
    requires !sys.callers[i].pc.Received? && Owed(caller.pc).None?
    requires lock == sys.lock || (lock == None && sys.lock == Some(i)) || (lock == Some(i) && sys.lock == None)
    requires CallerOk(sys.(callers := sys.callers[i := caller], lock := lock), i)
    ensures Inv(sys.(callers := sys.callers[i := caller], lock := lock))
  {
    var sys' := sys.(callers := sys.callers[i := caller], lock := lock);
    assert InFlight(sys') == InFlight(sys) by {
      assert CallerOk(sys, i);
    }
    forall j | 0 <= j < |sys'.callers| ensures CallerOk(sys', j) {
      assert CallerOk(sys, j);
    }
  }

  lemma HeldThroughStep(sys: Sys, op: Op, t: Tokens)
    requires Valid(sys.server.store) && Drawn(sys.server, op) && FiledOk(sys) && HeldOk(sys, t)
    ensures HeldOk(Serve(sys, op), t)
  {
    if Usable(sys.server.store, sys.me, t.refreshToken) && !Harms(sys.server.store, sys.me, op, t.refreshToken) {
      StaysUsable(sys.server, sys.me, t.refreshToken, op);
    } else {
      StaysUnusable(sys.server, sys.me, t.refreshToken, op);
    }
  }

  lemma PendingThroughStep(sys: Sys, op: Op, answer: TokenResponse)
    requires Valid(sys.server.store) && Drawn(sys.server, op) && PendingOk(sys, answer)
    ensures PendingOk(Serve(sys, op), answer)
  {
    Runs.StepPersists(sys.server, op);
    var t := answer.refreshToken;
    if Usable(sys.server.store, sys.me, t) && !Harms(sys.server.store, sys.me, op, t) {
      StaysUsable(sys.server, sys.me, t, op);
    } else {
      StaysUnusable(sys.server, sys.me, t, op);
    }
  }

  lemma PcThroughStep(sys: Sys, op: Op, kind: Kind, pc: Pc)
    requires Valid(sys.server.store) && Drawn(sys.server, op) && FiledOk(sys) && PcOk(sys, kind, pc)
    ensures PcOk(Serve(sys, op), kind, pc)
  {
    if pc.Sending? {
      HeldThroughStep(sys, op, pc.stored);
    } else if Owed(pc).Some? {
      PendingThroughStep(sys, op, Owed(pc).value);
      if pc.Received? {
        StaysSpent(sys.server, pc.stored.refreshToken, op);
      }
    }
  }

  lemma FiledThroughStep(sys: Sys, op: Op)
    requires Drawn(sys.server, op) && FiledOk(sys)
    ensures FiledOk(Serve(sys, op))
  {
    Runs.StepPersists(sys.server, op);
    forall t | t in Serve(sys, op).lost
      ensures t in Serve(sys, op).server.store.refreshTokens && !Usable(Serve(sys, op).server.store, sys.me, t)
    {
      StaysUnusable(sys.server, sys.me, t, op);
    }
  }

  /** A request of anybody, whatever it takes from this client. */
  lemma ServerStep(sys: Sys, op: Op)
    requires Valid(sys.server.store) && Inv(sys) && Drawn(sys.server, op)
    ensures Inv(Serve(sys, op))
  {
    var sys' := Serve(sys, op);
    FiledThroughStep(sys, op);
    forall i | 0 <= i < |sys'.callers| ensures CallerOk(sys', i) {
      assert CallerOk(sys, i);
      PcThroughStep(sys, op, sys.callers[i].kind, sys.callers[i].pc);
    }
    if sys.disk.Some? {
      HeldThroughStep(sys, op, sys.disk.value);
    }
  }

  // ---- an answer comes, and is filed ----

  /** The caller's place in the system when its program counter moves. */
  predicate MovesTo(sys: Sys, i: nat, caller: Caller, lock: Option<nat>)
    requires At(sys, i)
  {
    && (Holds(caller.pc) <==> lock == Some(i))
    && (lock == sys.lock || (sys.lock == Some(i) && lock == None))
    && CountsOk(caller) && KindOk(sys.me, caller)
  }

  function Filed(sys: Sys, i: nat, caller: Caller, lock: Option<nat>, answer: TokenResponse): Sys
    requires At(sys, i)
  {
    File(sys, answer).(callers := sys.callers[i := caller], lock := lock)
  }

  lemma FiledBystander(sys: Sys, i: nat, caller: Caller, lock: Option<nat>, answer: TokenResponse, j: nat)
    requires Inv(sys) && At(sys, i) && At(sys, j) && j != i && Owed(sys.callers[i].pc) == Some(answer)
    requires MovesTo(sys, i, caller, lock) && Owed(caller.pc).None?
    ensures CallerOk(Filed(sys, i, caller, lock, answer), j)
  {
    var sys', pc := Filed(sys, i, caller, lock, answer), sys.callers[j].pc;
    assert CallerOk(sys, i) && CallerOk(sys, j);
    assert Apart(sys.callers[i].pc, pc) by {
      assert if i < j then Apart(sys.callers[i].pc, pc) else Apart(pc, sys.callers[i].pc);
    }
  }

  lemma FiledDisk(sys: Sys, i: nat, caller: Caller, lock: Option<nat>, answer: TokenResponse)
    requires Inv(sys) && At(sys, i) && Owed(sys.callers[i].pc) == Some(answer)
    requires MovesTo(sys, i, caller, lock) && Owed(caller.pc).None?
    ensures DiskOk(Filed(sys, i, caller, lock, answer)) && FiledOk(Filed(sys, i, caller, lock, answer))
    ensures LogOk(Filed(sys, i, caller, lock, answer).saved, sys.log)
  {
    var sys' := Filed(sys, i, caller, lock, answer);
    assert CallerOk(sys, i);
    var refreshToken := sys'.disk.value.refreshToken;
    if InFlight(sys').Some? {
      assert CallerOk(sys, sys.lock.value);
    }
    assert InFlight(sys') != Some(refreshToken);
    forall k | 0 <= k < |sys.log| ensures EntryOk(sys'.saved, sys.log[k]) {
      assert EntryOk(sys.saved, sys.log[k]);
    }
  }

  lemma FilingKeeps(sys: Sys, i: nat, caller: Caller, lock: Option<nat>, answer: TokenResponse)
    requires Inv(sys) && At(sys, i) && Owed(sys.callers[i].pc) == Some(answer)
    requires MovesTo(sys, i, caller, lock) && Owed(caller.pc).None?
    requires PcOk(Filed(sys, i, caller, lock, answer), caller.kind, caller.pc)
    ensures Inv(Filed(sys, i, caller, lock, answer))
  {
    var sys' := Filed(sys, i, caller, lock, answer);
    FiledDisk(sys, i, caller, lock, answer);
    forall j | 0 <= j < |sys'.callers| ensures CallerOk(sys', j) {
      if j != i {
        FiledBystander(sys, i, caller, lock, answer, j);
      }
    }
    forall j, k | 0 <= j < k < |sys'.callers| ensures Apart(sys'.callers[j].pc, sys'.callers[k].pc) {
      assert Apart(sys.callers[j].pc, sys.callers[k].pc);
    }
  }

  // ---- every action keeps the invariant ----

  lemma SpawnKeeps(sys: Sys, kind: Kind)
    requires Inv(sys) && Enabled(sys, Spawn(kind))
    ensures Inv(Next(sys, Spawn(kind)))
  {
    var sys' := Next(sys, Spawn(kind));
    forall j | 0 <= j < |sys'.callers| ensures CallerOk(sys', j) {
      assert j < |sys.callers| ==> CallerOk(sys, j) && sys'.callers[j] == sys.callers[j];
    }
  }

  lemma LoadKeeps(sys: Sys, i: nat)
    requires Inv(sys) && Enabled(sys, Load(i))
    ensures Inv(Next(sys, Load(i)))
  {
    assert CallerOk(sys, i);
    var sys' := Next(sys, Load(i));
    LocalStep(sys, i, sys'.callers[i], sys'.lock);
  }

  lemma AcquireKeeps(sys: Sys, i: nat)
    requires Inv(sys) && Enabled(sys, Acquire(i))
    ensures Inv(Next(sys, Acquire(i)))
  {
    assert CallerOk(sys, i);
    var sys' := Next(sys, Acquire(i));
    LocalStep(sys, i, sys'.callers[i], sys'.lock);
  }

  lemma CheckKeeps(sys: Sys, i: nat)
    requires Inv(sys) && Enabled(sys, Check(i))
    ensures Inv(Next(sys, Check(i)))
  {
    assert CallerOk(sys, i);
    var sys' := Next(sys, Check(i));
    LocalStep(sys, i, sys'.callers[i], sys'.lock);
  }

  lemma ReleaseKeeps(sys: Sys, i: nat)
    requires Inv(sys) && Enabled(sys, Release(i))
    ensures Inv(Next(sys, Release(i)))
  {
    assert CallerOk(sys, i);
    var sys' := Next(sys, Release(i));
    LocalStep(sys, i, sys'.callers[i], sys'.lock);
  }

  lemma ApiKeeps(sys: Sys, i: nat, response: ApiResponse)
    requires Inv(sys) && Enabled(sys, Api(i, response))
    ensures Inv(DoApi(sys, i, response))
  {
    assert CallerOk(sys, i);
    var sys' := DoApi(sys, i, response);
    assert sys'.callers == sys.callers[i := sys'.callers[i]];
    LocalStep(sys, i, sys'.callers[i], sys'.lock);
  }

  // ---- the refresh request ----

  function Counted(caller: Caller, pc: Pc): Caller {
    caller.(refreshRequests := caller.refreshRequests + 1, pc := pc)
  }

  /** An exchange that does not end in a grant leaves the server as it was. */
  lemma ExchangeFailed(sys: Sys, i: nat, outcome: Outcome)
    requires Inv(sys) && At(sys, i) && sys.callers[i].pc.Sending? && outcome.Failed?
    ensures Inv(sys.(callers := sys.callers[i := Counted(sys.callers[i], Returned(outcome))], lock := None))
  {
    assert CallerOk(sys, i);
    LocalStep(sys, i, Counted(sys.callers[i], Returned(outcome)), None);
  }

  predicate GrantedNow(sys: Sys, i: nat, op: Op) {
    && At(sys, i) && sys.callers[i].pc.Sending? && op.RefreshOp?
    && op == RefreshRequest(sys, sys.callers[i].pc.stored, op.freshAccess, op.freshRefresh)
    && Drawn(sys.server, op) && Step(sys.server, op).1.Grant?
  }

  /** The system once the server has granted the request of caller i. */
  function Granted(sys: Sys, i: nat, op: Op, arrived: bool): Sys
    requires GrantedNow(sys, i, op)
  {
    var caller := sys.callers[i];
    var goal, stored := caller.pc.goal, caller.pc.stored;
    var pc := if arrived then Received(goal, stored, Respond(sys, op.freshAccess, op.freshRefresh))
              else Returned(Failed(RefreshFailure(NoAnswer)));
    sys.(server := Step(sys.server, op).0,
         callers := sys.callers[i := Counted(caller, pc)],
         log := sys.log + [Exchanged(goal, stored.accessToken)],
         lock := if arrived then sys.lock else None,
         lost := if arrived then sys.lost else sys.lost + {stored.refreshToken})
  }

  /** What is known when the server grants a refresh. */
  lemma GrantedFacts(sys: Sys, i: nat, op: Op)
    requires Valid(sys.server.store) && Inv(sys) && GrantedNow(sys, i, op)
    ensures var stored, s := sys.callers[i].pc.stored, Step(sys.server, op).0.store;
            && sys.lock == Some(i) && InFlight(sys) == None
            && FromFile(sys, stored) && LinkedToFile(sys, stored)
            && !Gone(sys, stored.refreshToken) && !Replaced(sys.log, stored.accessToken)
            && GoalOk(sys.callers[i].pc.goal, stored.accessToken)
            && Spent(s, stored.refreshToken)
            && op.freshAccess !in sys.server.store.accessTokens && op.freshAccess in s.accessTokens
            && op.freshRefresh !in sys.server.store.refreshTokens && Usable(s, sys.me, op.freshRefresh)
  {
    assert CallerOk(sys, i);
    ExchangeStep(sys.server, sys.me, op.token, op.freshAccess, op.freshRefresh);
  }

  lemma GrantedFiled(sys: Sys, i: nat, op: Op, arrived: bool)
    requires Valid(sys.server.store) && Inv(sys) && GrantedNow(sys, i, op)
    ensures FiledOk(Granted(sys, i, op, arrived))
  {
    var sys' := Granted(sys, i, op, arrived);
    GrantedFacts(sys, i, op);
    Runs.StepPersists(sys.server, op);
    forall t | t in sys'.lost ensures t in sys'.server.store.refreshTokens && !Usable(sys'.server.store, sys.me, t) {
      if t in sys.lost {
        StaysUnusable(sys.server, sys.me, t, op);
      }
    }
  }

  /** Tokens linked to the ones just exchanged: these are gone, others are as they were. */
  lemma GrantedHeld(sys: Sys, i: nat, op: Op, arrived: bool, t: Tokens)
    requires Valid(sys.server.store) && Inv(sys) && GrantedNow(sys, i, op)
    requires HeldOk(sys, t) && Linked(t, sys.callers[i].pc.stored)
    ensures HeldOk(Granted(sys, i, op, arrived), t)
  {
    GrantedFacts(sys, i, op);
    if t != sys.callers[i].pc.stored {
      if Usable(sys.server.store, sys.me, t.refreshToken) {
        StaysUsable(sys.server, sys.me, t.refreshToken, op);
      } else {
        StaysUnusable(sys.server, sys.me, t.refreshToken, op);
      }
    }
  }

  /** The log gains the replaced access token, which it did not hold. */
  lemma LogGrows(saved: set<Credential>, log: seq<Exchanged>, entry: Exchanged)
    ensures LogOk(saved, log) && EntryOk(saved, entry) && !Replaced(log, entry.replaced) ==> LogOk(saved, log + [entry])
  {
    assert LogOk(saved, log) ==> forall k | 0 <= k < |log| :: EntryOk(saved, log[k]);
  }

  lemma GrantedPending(sys: Sys, i: nat, op: Op, arrived: bool, answer: TokenResponse)
    requires Valid(sys.server.store) && Inv(sys) && GrantedNow(sys, i, op) && PendingOk(sys, answer)
    ensures PendingOk(Granted(sys, i, op, arrived), answer)
    ensures answer.accessToken != op.freshAccess && answer.refreshToken != op.freshRefresh
  {
    var t := answer.refreshToken;
    GrantedFacts(sys, i, op);
    Runs.StepPersists(sys.server, op);
    if Usable(sys.server.store, sys.me, t) {
      StaysUsable(sys.server, sys.me, t, op);
    } else {
      StaysUnusable(sys.server, sys.me, t, op);
    }
  }

  lemma GrantedBystander(sys: Sys, i: nat, op: Op, arrived: bool, j: nat)
    requires Valid(sys.server.store) && Inv(sys) && GrantedNow(sys, i, op) && At(sys, j) && j != i
    ensures CallerOk(Granted(sys, i, op, arrived), j)
    ensures Owed(sys.callers[j].pc).Some? ==>
              && Owed(sys.callers[j].pc).value.accessToken != op.freshAccess
              && Owed(sys.callers[j].pc).value.refreshToken != op.freshRefresh
  {
    GrantedFacts(sys, i, op);
    assert CallerOk(sys, j);
    if sys.callers[j].pc.Traded? {
      GrantedPending(sys, i, op, arrived, sys.callers[j].pc.answer);
    }
  }

  lemma GrantedPc(sys: Sys, i: nat, op: Op, arrived: bool)
    requires Valid(sys.server.store) && Inv(sys) && GrantedNow(sys, i, op)
    ensures var sys' := Granted(sys, i, op, arrived); PcOk(sys', sys'.callers[i].kind, sys'.callers[i].pc)
  {
    GrantedFacts(sys, i, op);
  }

  lemma GrantedCaller(sys: Sys, i: nat, op: Op, arrived: bool)
    requires Valid(sys.server.store) && Inv(sys) && GrantedNow(sys, i, op)
    ensures CallerOk(Granted(sys, i, op, arrived), i)
  {
    assert CallerOk(sys, i);
    GrantedPc(sys, i, op, arrived);
  }

  lemma GrantedApart(sys: Sys, i: nat, op: Op, arrived: bool)
    requires Valid(sys.server.store) && Inv(sys) && GrantedNow(sys, i, op)
    ensures AllApart(Granted(sys, i, op, arrived).callers)
  {
    var callers' := Granted(sys, i, op, arrived).callers;
    forall j, k | 0 <= j < k < |callers'| ensures Apart(callers'[j].pc, callers'[k].pc) {
      assert Apart(sys.callers[j].pc, sys.callers[k].pc);
      if j == i {
        GrantedBystander(sys, i, op, arrived, k);
      } else if k == i {
        GrantedBystander(sys, i, op, arrived, j);
      }
    }
  }

  lemma GrantedKeeps(sys: Sys, i: nat, op: Op, arrived: bool)
    requires Valid(sys.server.store) && Inv(sys) && GrantedNow(sys, i, op)
    ensures Inv(Granted(sys, i, op, arrived))
  {
    var sys' := Granted(sys, i, op, arrived);
    GrantedFacts(sys, i, op);
    GrantedFiled(sys, i, op, arrived);
    GrantedHeld(sys, i, op, arrived, sys.disk.value);
    LogGrows(sys.saved, sys.log, Exchanged(sys.callers[i].pc.goal, sys.callers[i].pc.stored.accessToken));
    GrantedApart(sys, i, op, arrived);
    forall j | 0 <= j < |sys'.callers| ensures CallerOk(sys', j) {
      if j == i {
        GrantedCaller(sys, i, op, arrived);
      } else {
        GrantedBystander(sys, i, op, arrived, j);
      }
    }
  }

  lemma ExchangeKeeps(sys: Sys, i: nat, access: Credential, refresh: Credential, fate: Fate)
    requires Valid(sys.server.store) && Inv(sys) && Enabled(sys, Exchange(i, access, refresh, fate))
    ensures Inv(DoExchange(sys, i, access, refresh, fate))
  {
    var op := RefreshRequest(sys, sys.callers[i].pc.stored, access, refresh);
    if !fate.NeverSent? && Step(sys.server, op).1.Grant? {
      GrantedKeeps(sys, i, op, fate.Arrived?);
      ExchangeIsGranted(sys, i, op, fate);
    } else {
      var outcome := Failed(RefreshFailure(if fate.Arrived? then RefusedGrant else NoAnswer));
      ExchangeIsRefused(sys, i, access, refresh, fate);
      ExchangeFailed(sys, i, outcome);
    }
  }

  lemma ExchangeIsGranted(sys: Sys, i: nat, op: Op, fate: Fate)
    requires GrantedNow(sys, i, op) && !fate.NeverSent?
    ensures DoExchange(sys, i, op.freshAccess, op.freshRefresh, fate) == Granted(sys, i, op, fate.Arrived?)
  {
    var sys' := DoExchange(sys, i, op.freshAccess, op.freshRefresh, fate);
    assert sys'.callers == Granted(sys, i, op, fate.Arrived?).callers;
  }

  lemma ExchangeIsRefused(sys: Sys, i: nat, access: Credential, refresh: Credential, fate: Fate)
    requires Valid(sys.server.store) && Enabled(sys, Exchange(i, access, refresh, fate))
    requires fate.NeverSent? ||
             !Step(sys.server, RefreshRequest(sys, sys.callers[i].pc.stored, access, refresh)).1.Grant?
    ensures var outcome := Failed(RefreshFailure(if fate.Arrived? then RefusedGrant else NoAnswer));
            DoExchange(sys, i, access, refresh, fate) ==
            sys.(callers := sys.callers[i := Counted(sys.callers[i], Returned(outcome))], lock := None)
  {
    var stored := sys.callers[i].pc.stored;
    if !fate.NeverSent? {
      ExchangeStep(sys.server, sys.me, stored.refreshToken, access, refresh);
    }
    var sys' := DoExchange(sys, i, access, refresh, fate);
    assert sys'.callers == sys.callers[i := sys'.callers[i]];
  }

  // ---- the saves ----

  /** A refresh whose answer is not filed loses the token it used. */
  lemma UnsavedKeeps(sys: Sys, i: nat)
    requires Inv(sys) && Enabled(sys, Save(i, Unchanged))
    ensures Inv(DoSave(sys, i, Unchanged))
  {
    var sys' := DoSave(sys, i, Unchanged);
    assert CallerOk(sys, i);
    forall j | 0 <= j < |sys'.callers| ensures CallerOk(sys', j) {
      assert CallerOk(sys, j);
    }
    forall j, k | 0 <= j < k < |sys'.callers| ensures Apart(sys'.callers[j].pc, sys'.callers[k].pc) {
      assert Apart(sys.callers[j].pc, sys.callers[k].pc);
    }
  }

  lemma SaveKeeps(sys: Sys, i: nat, result: SaveResult)
    requires Inv(sys) && Enabled(sys, Save(i, result))
    ensures Inv(DoSave(sys, i, result))
  {
    if result.Unchanged? {
      UnsavedKeeps(sys, i);
    } else {
      var sys' := DoSave(sys, i, result);
      assert CallerOk(sys, i);
      FilingKeeps(sys, i, sys'.callers[i], sys'.lock, sys.callers[i].pc.answer);
    }
  }

  lemma SaveLoginKeeps(sys: Sys, i: nat, result: SaveResult)
    requires Inv(sys) && Enabled(sys, SaveLogin(i, result))
    ensures Inv(DoSaveLogin(sys, i, result))
  {
    var sys' := DoSaveLogin(sys, i, result);
    assert CallerOk(sys, i);
    if result.Unchanged? {
      LocalStep(sys, i, sys'.callers[i], sys.lock);
    } else {
      FilingKeeps(sys, i, sys'.callers[i], sys.lock, sys.callers[i].pc.answer);
    }
  }

  // ---- the login ----

  /** A login's answer arrives: new to everyone. */
  lemma AnswerKeeps(sys: Sys, before: Sys, i: nat, answer: TokenResponse)
    requires Inv(before) && Inv(sys) && sys.callers == before.callers
    requires At(sys, i) && sys.callers[i].pc.Trading? && PendingOk(sys, answer)
    requires answer.accessToken !in before.server.store.accessTokens
    requires answer.refreshToken !in before.server.store.refreshTokens
    ensures Inv(Goto(sys, i, Traded(answer)))
  {
    var sys' := Goto(sys, i, Traded(answer));
    assert CallerOk(sys, i);
    assert InFlight(sys') == InFlight(sys);
    forall j | 0 <= j < |sys'.callers| ensures CallerOk(sys', j) {
      assert CallerOk(sys, j);
    }
    forall j, k | 0 <= j < k < |sys'.callers| ensures Apart(sys'.callers[j].pc, sys'.callers[k].pc) {
      assert Apart(sys.callers[j].pc, sys.callers[k].pc);
      assert CallerOk(before, j) && CallerOk(before, k);
    }
  }

  lemma TradeKeeps(sys: Sys, i: nat, op: Op, fate: Fate)
    requires Valid(sys.server.store) && Inv(sys) && At(sys, i) && sys.callers[i].pc.Trading? && op.RedeemOp?
    requires sys.callers[i].kind.CompleteLogin? && op.request == sys.callers[i].kind.request
    requires fate.NeverSent? || Drawn(sys.server, op)
    ensures Inv(DoTrade(sys, i, op, fate))
  {
    var sys' := DoTrade(sys, i, op, fate);
    assert CallerOk(sys, i);
    if fate.NeverSent? {
      LocalStep(sys, i, sys'.callers[i], sys.lock);
    } else {
      var served := Serve(sys, op);
      ServerStep(sys, op);
      assert CallerOk(served, i);
      if Step(sys.server, op).1.Grant? && fate.Arrived? {
        TradeStep(sys.server, op);
        AnswerKeeps(served, sys, i, Respond(sys, op.freshAccess, op.freshRefresh));
      } else {
        LocalStep(served, i, sys'.callers[i], sys.lock);
      }
    }
  }

  // ---- all of them ----

  lemma ExchangeKeepsValid(sys: Sys, i: nat, access: Credential, refresh: Credential, fate: Fate)
    requires Valid(sys.server.store) && Enabled(sys, Exchange(i, access, refresh, fate))
    ensures Valid(DoExchange(sys, i, access, refresh, fate).server.store)
  {
    if !fate.NeverSent? {
      StepValid(sys.server, RefreshRequest(sys, sys.callers[i].pc.stored, access, refresh));
    }
  }

  lemma TradeKeepsValid(sys: Sys, i: nat, op: Op, fate: Fate)
    requires Valid(sys.server.store) && At(sys, i) && op.RedeemOp? && (fate.NeverSent? || Drawn(sys.server, op))
    ensures Valid(DoTrade(sys, i, op, fate).server.store)
  {
    if !fate.NeverSent? {
      StepValid(sys.server, op);
    }
  }

  lemma NextValid(sys: Sys, action: Action)
    requires Valid(sys.server.store) && Enabled(sys, action)
    ensures Valid(Next(sys, action).server.store)
  {
    match action
    case Exchange(i, access, refresh, fate) => ExchangeKeepsValid(sys, i, access, refresh, fate);
    case Trade(i, access, refresh, fate) =>
      TradeKeepsValid(sys, i, RedeemOp(sys.callers[i].kind.request, access, refresh), fate);
    case Others(op) => StepValid(sys.server, op);
    case _ => assert Next(sys, action).server == sys.server;
  }

  /** One action of anybody keeps what the server and what the protocol keep. */
  lemma NextKeeps(sys: Sys, action: Action)
    requires Valid(sys.server.store) && Inv(sys) && Enabled(sys, action)
    ensures Valid(Next(sys, action).server.store) && Inv(Next(sys, action))
  {
    NextValid(sys, action);
    match action
    case Spawn(kind) => SpawnKeeps(sys, kind);
    case Load(i) => LoadKeeps(sys, i);
    case Acquire(i) => AcquireKeeps(sys, i);
    case Check(i) => CheckKeeps(sys, i);
    case Exchange(i, access, refresh, fate) => ExchangeKeeps(sys, i, access, refresh, fate);
    case Save(i, result) => SaveKeeps(sys, i, result);
    case Release(i) => ReleaseKeeps(sys, i);
    case Api(i, response) => ApiKeeps(sys, i, response);
    case Trade(i, access, refresh, fate) =>
      TradeKeeps(sys, i, RedeemOp(sys.callers[i].kind.request, access, refresh), fate);
    case SaveLogin(i, result) => SaveLoginKeeps(sys, i, result);
    case Others(op) => ServerStep(sys, op);
  }

  lemma {:induction false} ReachableOk(start: Sys, actions: seq<Action>, end: Sys)
    requires Valid(start.server.store) && Inv(start) && Reachable(start, actions, end)
    ensures Valid(end.server.store) && Inv(end)
    decreases |actions|
  {
    if actions != [] {
      NextKeeps(start, actions[0]);
      ReachableOk(Next(start, actions[0]), actions[1..], end);
    }
  }

  // ---- runs that are put together ----

  ghost predicate Leads(start: Sys, end: Sys) {
    exists actions :: Reachable(start, actions, end)
  }

  lemma LeadsNowhere(sys: Sys)
    ensures Leads(sys, sys)
  {
    assert Reachable(sys, [], sys);
  }

  lemma {:induction false} ReachableAppend(start: Sys, actions: seq<Action>, mid: Sys, action: Action)
    requires Reachable(start, actions, mid) && Enabled(mid, action)
    ensures Reachable(start, actions + [action], Next(mid, action))
    decreases |actions|
  {
    if actions == [] {
      assert Reachable(Next(start, action), [], Next(start, action));
      assert [action][1..] == [];
    } else {
      ReachableAppend(Next(start, actions[0]), actions[1..], mid, action);
      assert (actions + [action])[1..] == actions[1..] + [action];
    }
  }

  lemma LeadsFurther(start: Sys, mid: Sys, action: Action)
    requires Leads(start, mid) && Enabled(mid, action)
    ensures Leads(start, Next(mid, action))
  {
    var actions :| Reachable(start, actions, mid);
    ReachableAppend(start, actions, mid, action);
  }

  lemma {:induction false} LeadsOn(start: Sys, mid: Sys, actions: seq<Action>, end: Sys)
    requires Leads(start, mid) && Reachable(mid, actions, end)
    ensures Leads(start, end)
    decreases |actions|
  {
    if actions != [] {
      LeadsFurther(start, mid, actions[0]);
      LeadsOn(start, Next(mid, actions[0]), actions[1..], end);
    }
  }

  lemma LeadsThrough(start: Sys, mid: Sys, end: Sys)
    requires Leads(start, mid) && Leads(mid, end)
    ensures Leads(start, end)
  {
    var actions :| Reachable(mid, actions, end);
    LeadsOn(start, mid, actions, end);
  }

  // ---- what is lost ----

  /** The action loses the refresh token: its exchange is granted and the answer is lost on the way
      or not saved, or another request takes it from this client. */
  predicate LosesNow(sys: Sys, action: Action, t: Credential)
    requires Enabled(sys, action)
  {
    match action
    case Exchange(i, access, refresh, AnswerLost) =>
      && sys.callers[i].pc.stored.refreshToken == t
      && Step(sys.server, RefreshRequest(sys, sys.callers[i].pc.stored, access, refresh)).1.Grant?
    case Save(i, Unchanged) => sys.callers[i].pc.stored.refreshToken == t
    case Trade(i, access, refresh, fate) =>
      !fate.NeverSent? && Harms(sys.server.store, sys.me, RedeemOp(sys.callers[i].kind.request, access, refresh), t)
    case Others(op) => Harms(sys.server.store, sys.me, op, t)
    case _ => false
  }

  /** Some action of the run loses it. */
  ghost predicate Loses(start: Sys, actions: seq<Action>, t: Credential)
    decreases |actions|
  {
    && actions != [] && Enabled(start, actions[0])
    && (LosesNow(start, actions[0], t) || Loses(Next(start, actions[0]), actions[1..], t))
  }

  /** `lost` is no more than a record of the run. */
  lemma {:induction false} LostExactly(start: Sys, actions: seq<Action>, end: Sys, t: Credential)
    requires Reachable(start, actions, end)
    ensures t in end.lost <==> t in start.lost || Loses(start, actions, t)
    decreases |actions|
  {
    if actions != [] {
      var next := Next(start, actions[0]);
      assert t in next.lost <==> t in start.lost || LosesNow(start, actions[0], t);
      LostExactly(next, actions[1..], end, t);
    }
  }

  // ---- what the protocol promises ----

  lemma FromInit(me: Text, epoch: nat, server: Server, actions: seq<Action>, sys: Sys)
    requires Valid(server.store) && Reachable(Init(me, epoch, server), actions, sys)
    ensures Valid(sys.server.store) && Inv(sys)
  {
    InitOk(me, epoch, server);
    ReachableOk(Init(me, epoch, server), actions, sys);
  }

  /** After any interleaving, logins included, whenever nobody holds the lock the refresh token on
      disk is known to the server, owned by this client, unspent and not revoked, exactly as long
      as no action of the run lost it. */
  lemma DiskTokenUsable(me: Text, epoch: nat, server: Server, actions: seq<Action>, sys: Sys)
    requires Valid(server.store) && Reachable(Init(me, epoch, server), actions, sys)
    requires sys.lock.None? && sys.disk.Some?
    ensures var t := sys.disk.value.refreshToken;
            Usable(sys.server.store, sys.me, t) <==> !Loses(Init(me, epoch, server), actions, t)
  {
    FromInit(me, epoch, server, actions, sys);
    LostExactly(Init(me, epoch, server), actions, sys, sys.disk.value.refreshToken);
  }

  lemma SendingIsAnswered(sys: Sys, i: nat, access: Credential, refresh: Credential)
    requires Valid(sys.server.store) && Inv(sys) && Enabled(sys, Exchange(i, access, refresh, Arrived))
    ensures var stored := sys.callers[i].pc.stored;
            var pc := DoExchange(sys, i, access, refresh, Arrived).callers[i].pc;
            && (Step(sys.server, RefreshRequest(sys, stored, access, refresh)).1.Grant? <==>
                stored.refreshToken !in sys.lost)
            && (if stored.refreshToken in sys.lost then pc == Returned(Failed(SessionExpired)) else pc.Received?)
  {
    assert CallerOk(sys, i);
    ExchangeStep(sys.server, sys.me, sys.callers[i].pc.stored.refreshToken, access, refresh);
  }

  /** A refresh request of any caller is refused if and only if an earlier action of the run lost
      the token it uses; only then is the caller told that the session expired. */
  lemma RefreshNeverRefused(me: Text, epoch: nat, server: Server, actions: seq<Action>, sys: Sys,
                            i: nat, access: Credential, refresh: Credential)
    requires Valid(server.store) && Reachable(Init(me, epoch, server), actions, sys)
    requires Enabled(sys, Exchange(i, access, refresh, Arrived))
    ensures var stored := sys.callers[i].pc.stored;
            var pc := DoExchange(sys, i, access, refresh, Arrived).callers[i].pc;
            var lost := Loses(Init(me, epoch, server), actions, stored.refreshToken);
            && (Step(sys.server, RefreshRequest(sys, stored, access, refresh)).1.Grant? <==> !lost)
            && (if lost then pc == Returned(Failed(SessionExpired)) else pc.Received?)
  {
    FromInit(me, epoch, server, actions, sys);
    LostExactly(Init(me, epoch, server), actions, sys, sys.callers[i].pc.stored.refreshToken);
    SendingIsAnswered(sys, i, access, refresh);
  }

  /** Every answer arrives, every refresh is saved, and nobody replays this client's codes or uses
      its refresh tokens in its name. */
  predicate LosslessNow(sys: Sys, action: Action)
    requires Enabled(sys, action)
  {
    match action
    case Exchange(_, _, _, fate) => !fate.AnswerLost?
    case Save(_, result) => !result.Unchanged?
    case Trade(i, _, _, _) => !Replays(sys, sys.callers[i].kind.request)
    case Others(RedeemOp(request, _, _)) => !Replays(sys, request)
    case Others(RefreshOp(clientId, _, _, _)) => clientId != sys.me
    case _ => true
  }

  predicate Replays(sys: Sys, request: CodeRedemption) {
    && request.clientId == sys.me && request.code in sys.server.store.codes
    && sys.server.store.codes[request.code].redeemed
  }

  ghost predicate Lossless(start: Sys, actions: seq<Action>)
    decreases |actions|
  {
    actions == [] ||
    (Enabled(start, actions[0]) && LosslessNow(start, actions[0]) && Lossless(Next(start, actions[0]), actions[1..]))
  }

  lemma {:induction false} LosslessLosesNothing(start: Sys, actions: seq<Action>, t: Credential)
    requires Lossless(start, actions)
    ensures !Loses(start, actions, t)
    decreases |actions|
  {
    if actions != [] {
      LosslessLosesNothing(Next(start, actions[0]), actions[1..], t);
    }
  }

  /** Where nothing is lost, no refresh request is ever refused. */
  lemma LosslessIsNeverRefused(me: Text, epoch: nat, server: Server, actions: seq<Action>, sys: Sys,
                               i: nat, access: Credential, refresh: Credential)
    requires Valid(server.store) && Reachable(Init(me, epoch, server), actions, sys)
    requires Lossless(Init(me, epoch, server), actions) && Enabled(sys, Exchange(i, access, refresh, Arrived))
    ensures Step(sys.server, RefreshRequest(sys, sys.callers[i].pc.stored, access, refresh)).1.Grant?
  {
    RefreshNeverRefused(me, epoch, server, actions, sys, i, access, refresh);
    LosslessLosesNothing(Init(me, epoch, server), actions, sys.callers[i].pc.stored.refreshToken);
  }

  // ---- what was granted and what was saved ----

  /** The granted refreshes of a run, in order. */
  ghost function Refreshes(start: Sys, actions: seq<Action>): seq<Exchanged>
    decreases |actions|
  {
    if actions == [] || !Enabled(start, actions[0]) then []
    else RefreshNow(start, actions[0]) + Refreshes(Next(start, actions[0]), actions[1..])
  }

  function RefreshNow(sys: Sys, action: Action): seq<Exchanged>
    requires Enabled(sys, action)
  {
    match action
    case Exchange(i, access, refresh, fate) =>
      var pc := sys.callers[i].pc;
      if !fate.NeverSent? && Step(sys.server, RefreshRequest(sys, pc.stored, access, refresh)).1.Grant?
      then [Exchanged(pc.goal, pc.stored.accessToken)] else []
    case _ => []
  }

  /** `log` is no more than a record of them. */
  lemma {:induction false} LogExactly(start: Sys, actions: seq<Action>, end: Sys)
    requires Reachable(start, actions, end)
    ensures end.log == start.log + Refreshes(start, actions)
    decreases |actions|
  {
    if actions != [] {
      var next := Next(start, actions[0]);
      assert next.log == start.log + RefreshNow(start, actions[0]);
      LogExactly(next, actions[1..], end);
    }
  }

  /** The action puts the access token into the file. */
  predicate SavesNow(sys: Sys, action: Action, t: Credential)
    requires Enabled(sys, action)
  {
    match action
    case Save(i, result) => !result.Unchanged? && sys.callers[i].pc.answer.accessToken == t
    case SaveLogin(i, result) => !result.Unchanged? && sys.callers[i].pc.answer.accessToken == t
    case _ => false
  }

  ghost predicate Saves(start: Sys, actions: seq<Action>, t: Credential)
    decreases |actions|
  {
    && actions != [] && Enabled(start, actions[0])
    && (SavesNow(start, actions[0], t) || Saves(Next(start, actions[0]), actions[1..], t))
  }

  /** And `saved` of what was saved. */
  lemma {:induction false} SavedExactly(start: Sys, actions: seq<Action>, end: Sys, t: Credential)
    requires Reachable(start, actions, end)
    ensures t in end.saved <==> t in start.saved || Saves(start, actions, t)
    decreases |actions|
  {
    if actions != [] {
      var next := Next(start, actions[0]);
      assert t in next.saved <==> t in start.saved || SavesNow(start, actions[0], t);
      SavedExactly(next, actions[1..], end, t);
    }
  }

  /** Each access token is replaced by at most one granted refresh of the run, so callers rejected
      with the same token cause at most one between them. */
  lemma OneRefreshPerToken(me: Text, epoch: nat, server: Server, actions: seq<Action>, sys: Sys, k: nat, l: nat)
    requires Valid(server.store) && Reachable(Init(me, epoch, server), actions, sys)
    requires k < |Refreshes(Init(me, epoch, server), actions)| && l < |Refreshes(Init(me, epoch, server), actions)|
    ensures var refreshes := Refreshes(Init(me, epoch, server), actions);
            && (refreshes[k].replaced == refreshes[l].replaced ==> k == l)
            && (refreshes[k].goal.Rejected? && refreshes[l].goal == refreshes[k].goal ==> k == l)
  {
    FromInit(me, epoch, server, actions, sys);
    LogExactly(Init(me, epoch, server), actions, sys);
    assert sys.log == Refreshes(Init(me, epoch, server), actions);
    OneEntryEach(sys.saved, Refreshes(Init(me, epoch, server), actions), k, l);
  }

  lemma OneEntryEach(saved: set<Credential>, log: seq<Exchanged>, k: nat, l: nat)
    requires LogOk(saved, log) && k < |log| && l < |log|
    ensures log[k].replaced == log[l].replaced ==> k == l
    ensures log[k].goal.Rejected? && log[l].goal == log[k].goal ==> k == l
  {
    assert EntryOk(saved, log[k]) && EntryOk(saved, log[l]);
  }

  /** Whoever gets a token, some action of the run saved it first; and no call sends more than two
      API requests and two refreshes. */
  lemma TokensAreSavedFirst(me: Text, epoch: nat, server: Server, actions: seq<Action>, sys: Sys, i: nat)
    requires Valid(server.store) && Reachable(Init(me, epoch, server), actions, sys)
    requires At(sys, i)
    ensures var caller, start := sys.callers[i], Init(me, epoch, server);
            && (caller.pc.Returned? && caller.pc.outcome.Token? ==> Saves(start, actions, caller.pc.outcome.token))
            && (caller.pc.Calling? ==> Saves(start, actions, caller.pc.token))
            && caller.apiRequests <= 2 && caller.refreshRequests <= 2
            && (!caller.kind.GetJson? ==> caller.apiRequests == 0 && caller.refreshRequests <= 1)
  {
    var pc := sys.callers[i].pc;
    FromInit(me, epoch, server, actions, sys);
    assert CallerOk(sys, i);
    if pc.Calling? {
      SavedExactly(Init(me, epoch, server), actions, sys, pc.token);
    } else if pc.Returned? && pc.outcome.Token? {
      SavedExactly(Init(me, epoch, server), actions, sys, pc.outcome.token);
    }
  }
}
