/** A login takes no lock, so it may overlap a refresh. Whether the session it saves is the one that
    stays on disk is decided at the moment of its save: this says exactly when. */
module Overlap {
  import opened Wrappers
  import opened Bytes
  import opened StoreModel
  import opened StoreInvariant
  import opened Tokens
  import opened RefreshMachine
  import opened RefreshProtocol
  import Runs

  /** The refresh token belongs to the session of this family. */
  predicate OfFamily(s: StoreState, t: Credential, f: nat) {
    t in s.refreshTokens && s.refreshTokens[t].family == f
  }

  predicate FileIn(sys: Sys, f: nat) {
    sys.disk.Some? && OfFamily(sys.server.store, sys.disk.value.refreshToken, f)
  }

  /** The holder of the lock will put another session into the file: it has an answer of another
      session, or is about to get one, its token being still good. */
  predicate Overwrites(sys: Sys, pc: Pc, f: nat) {
    match pc
    case Received(_, _, answer) => !OfFamily(sys.server.store, answer.refreshToken, f)
    case Sending(_, stored) =>
      stored.refreshToken !in sys.lost && !OfFamily(sys.server.store, stored.refreshToken, f)
    case _ => false
  }

  predicate Endangered(sys: Sys, f: nat) {
    sys.lock.Some? && At(sys, sys.lock.value) && Overwrites(sys, sys.callers[sys.lock.value].pc, f)
  }

  predicate SavesLogin(action: Action) {
    action.SaveLogin? && !action.result.Unchanged?
  }

  predicate NoneSavesLogin(actions: seq<Action>) {
    forall action | action in actions :: !SavesLogin(action)
  }

  /** In every continuation without another login, the file keeps a token of this session. */
  ghost predicate StaysIn(start: Sys, f: nat) {
    forall actions, end | Reachable(start, actions, end) && NoneSavesLogin(actions) :: FileIn(end, f)
  }

  // ---- nothing else takes the file out of the session ----

  /** A token never changes its session. */
  lemma FamilyStays(w: Server, op: Op, t: Credential, f: nat)
    requires Drawn(w, op) && t in w.store.refreshTokens
    ensures OfFamily(Step(w, op).0.store, t, f) <==> OfFamily(w.store, t, f)
  {
    Runs.StepPersists(w, op);
    assert Runs.SameRefresh(w.store.refreshTokens[t], Step(w, op).0.store.refreshTokens[t]);
  }

  /** And a refresh stays within its own. */
  lemma RefreshStaysInFamily(w: Server, op: Op, f: nat)
    requires Drawn(w, op) && op.RefreshOp? && Step(w, op).1.Grant?
    ensures OfFamily(Step(w, op).0.store, op.freshRefresh, f) <==> OfFamily(w.store, op.token, f)
  {
    HandedDrawn(w, op);
  }

  lemma ServeStaysIn(sys: Sys, op: Op, f: nat)
    requires Inv(sys) && Drawn(sys.server, op)
    ensures FileIn(sys, f) ==> FileIn(Serve(sys, op), f)
    ensures !Endangered(sys, f) ==> !Endangered(Serve(sys, op), f)
  {
    if sys.disk.Some? {
      FamilyStays(sys.server, op, sys.disk.value.refreshToken, f);
    }
    if sys.lock.Some? {
      var pc := sys.callers[sys.lock.value].pc;
      assert CallerOk(sys, sys.lock.value);
      if pc.Received? {
        FamilyStays(sys.server, op, pc.answer.refreshToken, f);
      } else if pc.Sending? {
        FamilyStays(sys.server, op, pc.stored.refreshToken, f);
      }
    }
  }

  lemma ExchangeStaysIn(sys: Sys, i: nat, access: Credential, refresh: Credential, fate: Fate, f: nat)
    requires Valid(sys.server.store) && Inv(sys) && Enabled(sys, Exchange(i, access, refresh, fate))
    requires FileIn(sys, f) && !Endangered(sys, f)
    ensures var end := DoExchange(sys, i, access, refresh, fate); FileIn(end, f) && !Endangered(end, f)
  {
    var stored := sys.callers[i].pc.stored;
    assert CallerOk(sys, i);
    if !fate.NeverSent? {
      var op := RefreshRequest(sys, stored, access, refresh);
      ExchangeStep(sys.server, sys.me, stored.refreshToken, access, refresh);
      FamilyStays(sys.server, op, sys.disk.value.refreshToken, f);
      if Step(sys.server, op).1.Grant? {
        RefreshStaysInFamily(sys.server, op, f);
      }
    }
  }

  lemma TradeStaysIn(sys: Sys, i: nat, op: Op, fate: Fate, f: nat)
    requires Inv(sys) && At(sys, i) && sys.callers[i].pc.Trading? && op.RedeemOp?
    requires fate.NeverSent? || Drawn(sys.server, op)
    requires FileIn(sys, f) && !Endangered(sys, f)
    ensures FileIn(DoTrade(sys, i, op, fate), f) && !Endangered(DoTrade(sys, i, op, fate), f)
  {
    assert CallerOk(sys, i);
    if !fate.NeverSent? {
      ServeStaysIn(sys, op, f);
    }
  }

  /** The other actions of a caller. */
  lemma CallerStaysIn(sys: Sys, action: Action, f: nat)
    requires Inv(sys) && Enabled(sys, action) && FileIn(sys, f) && !Endangered(sys, f)
    requires action.Load? || action.Acquire? || action.Check? || action.Save? || action.Release? || action.Api?
             || (action.SaveLogin? && action.result.Unchanged?)
    ensures FileIn(Next(sys, action), f) && !Endangered(Next(sys, action), f)
  {
    assert CallerOk(sys, action.i);
  }

  lemma NextStaysIn(sys: Sys, action: Action, f: nat)
    requires Valid(sys.server.store) && Inv(sys) && Enabled(sys, action) && !SavesLogin(action)
    requires FileIn(sys, f) && !Endangered(sys, f)
    ensures FileIn(Next(sys, action), f) && !Endangered(Next(sys, action), f)
  {
    match action
    case Spawn(_) =>
    case Exchange(i, access, refresh, fate) => ExchangeStaysIn(sys, i, access, refresh, fate, f);
    case Trade(i, access, refresh, fate) =>
      TradeStaysIn(sys, i, RedeemOp(sys.callers[i].kind.request, access, refresh), fate, f);
    case Others(op) => ServeStaysIn(sys, op, f);
    case _ => CallerStaysIn(sys, action, f);
  }

  lemma {:induction false} RunStaysIn(start: Sys, actions: seq<Action>, end: Sys, f: nat)
    requires Valid(start.server.store) && Inv(start) && FileIn(start, f) && !Endangered(start, f)
    requires Reachable(start, actions, end) && NoneSavesLogin(actions)
    ensures FileIn(end, f)
    decreases |actions|
  {
    if actions != [] {
      assert actions[0] in actions;
      NextKeeps(start, actions[0]);
      NextStaysIn(start, actions[0], f);
      RunStaysIn(Next(start, actions[0]), actions[1..], end, f);
    }
  }

  // ---- and the holder does ----

  lemma LongerThanAll(s: set<Credential>) returns (n: nat)
    ensures forall c | c in s :: |c.text| < n
    decreases s
  {
    if s == {} {
      n := 0;
    } else {
      var c :| c in s;
      n := LongerThanAll(s - {c});
      n := if n > |c.text| then n else |c.text| + 1;
    }
  }

  /** There are always new credentials to draw. */
  lemma NewCredentials(s: set<Credential>) returns (access: Credential, refresh: Credential)
    ensures access !in s && refresh !in s && access != refresh
  {
    var n := LongerThanAll(s);
    access, refresh := Credential(seq(n, i => 'a')), Credential(seq(n + 1, i => 'a'));
    assert |access.text| != |refresh.text|;
  }

  lemma ReceivedOverwrites(sys: Sys, f: nat) returns (actions: seq<Action>, end: Sys)
    requires Inv(sys) && Endangered(sys, f) && sys.callers[sys.lock.value].pc.Received?
    ensures Reachable(sys, actions, end) && NoneSavesLogin(actions) && !FileIn(end, f)
  {
    var save := Save(sys.lock.value, SaveResult.Done);
    actions, end := [save], Next(sys, save);
    assert Reachable(end, [], end) && actions[1..] == [];
  }

  /** The request is sent and granted: the answer is of the other session too. */
  lemma SendingReceives(sys: Sys, f: nat) returns (exchange: Action)
    requires Valid(sys.server.store) && Inv(sys) && Endangered(sys, f) && sys.callers[sys.lock.value].pc.Sending?
    ensures Enabled(sys, exchange) && exchange.Exchange? && exchange.i == sys.lock.value
    ensures var received := Next(sys, exchange);
            && Endangered(received, f) && received.lock == sys.lock
            && received.callers[sys.lock.value].pc.Received?
  {
    var i := sys.lock.value;
    var stored := sys.callers[i].pc.stored;
    var access, refresh := NewCredentials(Credentials(sys.server.store));
    var op := RefreshRequest(sys, stored, access, refresh);
    assert CallerOk(sys, i);
    assert Drawn(sys.server, op);
    ExchangeStep(sys.server, sys.me, stored.refreshToken, access, refresh);
    RefreshStaysInFamily(sys.server, op, f);
    exchange := Exchange(i, access, refresh, Arrived);
  }

  lemma SendingOverwrites(sys: Sys, f: nat) returns (actions: seq<Action>, end: Sys)
    requires Valid(sys.server.store) && Inv(sys) && Endangered(sys, f) && sys.callers[sys.lock.value].pc.Sending?
    ensures Reachable(sys, actions, end) && NoneSavesLogin(actions) && !FileIn(end, f)
  {
    var exchange := SendingReceives(sys, f);
    NextKeeps(sys, exchange);
    var rest;
    rest, end := ReceivedOverwrites(Next(sys, exchange), f);
    actions := [exchange] + rest;
    assert actions[1..] == rest;
  }

  // ---- so ----

  /** The condition is the same before and after the login's own save. */
  lemma SavedLogin(sys: Sys, i: nat, result: SaveResult, f: nat)
    requires Inv(sys) && Enabled(sys, SaveLogin(i, result)) && !result.Unchanged?
    requires OfFamily(sys.server.store, sys.callers[i].pc.answer.refreshToken, f)
    ensures var saved := Next(sys, SaveLogin(i, result));
            FileIn(saved, f) && (Endangered(saved, f) <==> Endangered(sys, f))
  {
    assert CallerOk(sys, i);
  }

  /** When a login is saved, its session stays on disk in every continuation without another login,
      if and only if the holder of the lock, if any, neither has an answer of another session nor is
      about to send another session's token that is still good. */
  lemma LoginStaysExactly(me: Text, epoch: nat, server: Server, before: seq<Action>, sys: Sys, i: nat,
                          result: SaveResult)
    returns (f: nat)
    requires Valid(server.store) && Reachable(Init(me, epoch, server), before, sys)
    requires Enabled(sys, SaveLogin(i, result)) && !result.Unchanged?
    ensures OfFamily(sys.server.store, sys.callers[i].pc.answer.refreshToken, f)
    ensures StaysIn(Next(sys, SaveLogin(i, result)), f) <==> !Endangered(sys, f)
  {
    FromInit(me, epoch, server, before, sys);
    assert CallerOk(sys, i);
    f := sys.server.store.refreshTokens[sys.callers[i].pc.answer.refreshToken].family;
    var saved := Next(sys, SaveLogin(i, result));
    NextKeeps(sys, SaveLogin(i, result));
    SavedLogin(sys, i, result, f);
    StaysExactly(saved, f);
  }

  /** From any state whose file is in the session. */
  lemma StaysExactly(sys: Sys, f: nat)
    requires Valid(sys.server.store) && Inv(sys) && FileIn(sys, f)
    ensures StaysIn(sys, f) <==> !Endangered(sys, f)
  {
    if Endangered(sys, f) {
      var actions, end;
      if sys.callers[sys.lock.value].pc.Received? {
        actions, end := ReceivedOverwrites(sys, f);
      } else {
        actions, end := SendingOverwrites(sys, f);
      }
      assert !StaysIn(sys, f);
    } else {
      forall actions, end | Reachable(sys, actions, end) && NoneSavesLogin(actions)
        ensures FileIn(end, f)
      {
        RunStaysIn(sys, actions, end, f);
      }
    }
  }
}
