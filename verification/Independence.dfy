/** Sessions do not influence one another: erasing from a run everything that was done with one
    authorization leaves every other answer as it was, although every later family then has
    another number. The proof is a simulation up to a renaming of families. */
module Independence {
  import opened Bytes
  import opened Time
  import opened StoreModel
  import opened StoreInvariant

  /** The family of the authorization behind code `c`. */
  predicate OfSession(s: StoreState, c: Credential, family: nat) {
    c in s.codes && s.codes[c].family == family
  }

  predicate SessionAccess(s: StoreState, c: Credential, t: Credential) {
    t in s.accessTokens && s.accessTokens[t].family.Some? && OfSession(s, c, s.accessTokens[t].family.value)
  }

  predicate SessionRefresh(s: StoreState, c: Credential, t: Credential) {
    t in s.refreshTokens && OfSession(s, c, s.refreshTokens[t].family)
  }

  /** Issuing the code, presenting it, refreshing or inspecting a token descended from it. */
  predicate OnSession(w: Server, op: Op, c: Credential) {
    match op
    case IssueCodeOp(_, _, _, drawn) => drawn == c
    case RedeemOp(request, _, _) => request.code == c
    case RefreshOp(_, token, _, _) => SessionRefresh(w.store, c, token)
    case InfoOp(token) => SessionAccess(w.store, c, token)
    case _ => false
  }

  /** The run without the session. */
  function Erase(w: Server, ops: seq<Op>, c: Credential): seq<Op>
    decreases |ops|
  {
    if ops == [] then []
    else
      (if OnSession(w, ops[0], c) then [] else [ops[0]]) + Erase(Step(w, ops[0]).0, ops[1..], c)
  }

  /** The answers of the full run to the requests that `Erase` keeps. */
  function OtherAnswers(w: Server, ops: seq<Op>, c: Credential): seq<Answer>
    decreases |ops|
  {
    if ops == [] then []
    else
      (if OnSession(w, ops[0], c) then [] else [Step(w, ops[0]).1]) + OtherAnswers(Step(w, ops[0]).0, ops[1..], c)
  }

  // ---- the simulation ----

  /** Families of the full run other than the session's, and their numbers in the erased run. */
  type Renaming = map<nat, nat>

  predicate SimCode(w: Server, v: Server, c: Credential, rho: Renaming, k: Credential) {
    && (k in v.store.codes <==> k in w.store.codes && k != c)
    && (k in v.store.codes ==>
          var a, b := w.store.codes[k], v.store.codes[k];
          && a.(family := b.family) == b && a.family in rho && rho[a.family] == b.family)
  }

  predicate SimAccess(w: Server, v: Server, c: Credential, rho: Renaming, t: Credential) {
    && (t in v.store.accessTokens <==> t in w.store.accessTokens && !SessionAccess(w.store, c, t))
    && (t in v.store.accessTokens ==>
          var a, b := w.store.accessTokens[t], v.store.accessTokens[t];
          && a.(family := b.family) == b
          && (a.family.Some? <==> b.family.Some?)
          && (a.family.Some? ==> a.family.value in rho && rho[a.family.value] == b.family.value))
  }

  predicate SimRefresh(w: Server, v: Server, c: Credential, rho: Renaming, t: Credential) {
    && (t in v.store.refreshTokens <==> t in w.store.refreshTokens && !SessionRefresh(w.store, c, t))
    && (t in v.store.refreshTokens ==>
          var a, b := w.store.refreshTokens[t], v.store.refreshTokens[t];
          a.(family := b.family) == b && a.family in rho && rho[a.family] == b.family)
  }

  /** The renaming is one to one, covers issued families only, leaves out the session's, and keeps
      what is revoked. */
  ghost predicate SimFamilies(w: Server, v: Server, c: Credential, rho: Renaming) {
    && (forall f | f in rho :: f < w.store.nextFamily && rho[f] < v.store.nextFamily && !OfSession(w.store, c, f))
    && (forall f, g | f in rho && g in rho && rho[f] == rho[g] :: f == g)
    && (forall f | f in rho :: f in w.store.revokedFamilies <==> rho[f] in v.store.revokedFamilies)
    && (forall f | f in v.store.revokedFamilies :: f < v.store.nextFamily)
    && (forall f | f in w.store.revokedFamilies :: f < w.store.nextFamily)
  }

  ghost predicate Sim(w: Server, v: Server, c: Credential, rho: Renaming) {
    && v.now == w.now
    && v.store.accessTokenLifetime == w.store.accessTokenLifetime
    && v.store.authorizationCodeLifetime == w.store.authorizationCodeLifetime
    && (forall k :: SimCode(w, v, c, rho, k))
    && (forall t :: SimAccess(w, v, c, rho, t))
    && (forall t :: SimRefresh(w, v, c, rho, t))
    && SimFamilies(w, v, c, rho)
  }

  /** The renaming after a step: a code issued on both sides pairs two new families. */
  function Renamed(w: Server, v: Server, op: Op, c: Credential, rho: Renaming): Renaming {
    if op.IssueCodeOp? && op.drawn != c then rho[w.store.nextFamily := v.store.nextFamily] else rho
  }

  /** The erased run skips the session's requests. */
  function Follow(w: Server, v: Server, op: Op, c: Credential): Server {
    if OnSession(w, op, c) then v else Step(v, op).0
  }

  lemma SameAnswer(w: Server, v: Server, op: Op, c: Credential, rho: Renaming)
    requires Sim(w, v, c, rho) && !OnSession(w, op, c)
    ensures Step(v, op).1 == Step(w, op).1
  {
    match op
    case RedeemOp(request, _, _) => assert SimCode(w, v, c, rho, request.code);
    case RefreshOp(_, token, _, _) => assert SimRefresh(w, v, c, rho, token);
    case InfoOp(token) => assert SimAccess(w, v, c, rho, token);
    case _ =>
  }

  lemma StillDrawn(w: Server, v: Server, op: Op, c: Credential, rho: Renaming)
    requires Sim(w, v, c, rho) && !OnSession(w, op, c) && Drawn(w, op)
    ensures Drawn(v, op)
  {
    SameAnswer(w, v, op, c, rho);
    FewerCredentials(w, v, c, rho);
  }

  lemma FewerCredentials(w: Server, v: Server, c: Credential, rho: Renaming)
    requires Sim(w, v, c, rho)
    ensures Credentials(v.store) <= Credentials(w.store)
  {
    forall k | k in Credentials(v.store) ensures k in Credentials(w.store) {
      assert SimCode(w, v, c, rho, k) && SimAccess(w, v, c, rho, k) && SimRefresh(w, v, c, rho, k);
    }
  }

  // ---- the session's own requests ----

  /** A request of the session changes nothing outside it. */
  lemma SessionStep(w: Server, v: Server, op: Op, c: Credential, rho: Renaming)
    requires Sim(w, v, c, rho) && Typed(w.store) && Drawn(w, op) && OnSession(w, op, c)
    ensures Sim(Step(w, op).0, v, c, rho)
  {
    HandedDrawn(w, op);
    if op.IssueCodeOp? {
      SessionIssued(w, v, op, c, rho);
    } else if op.RedeemOp? {
      SessionRedeems(w, v, op, c, rho);
    } else if op.RefreshOp? {
      SessionRefreshes(w, v, op, c, rho);
    }
  }

  lemma SessionIssued(w: Server, v: Server, op: Op, c: Credential, rho: Renaming)
    requires Sim(w, v, c, rho) && Typed(w.store) && op.IssueCodeOp? && op.drawn == c
    requires c !in Credentials(w.store)
    ensures Sim(Step(w, op).0, v, c, rho)
  {
    var w' := Step(w, op).0;
    forall k ensures SimCode(w', v, c, rho, k) {
      assert SimCode(w, v, c, rho, k);
    }
    forall t ensures SimAccess(w', v, c, rho, t) {
      assert SimAccess(w, v, c, rho, t);
    }
    forall t ensures SimRefresh(w', v, c, rho, t) {
      assert SimRefresh(w, v, c, rho, t);
    }
  }

  lemma SessionRedeems(w: Server, v: Server, op: Op, c: Credential, rho: Renaming)
    requires Sim(w, v, c, rho) && FamiliesOfCodes(w.store) && op.RedeemOp? && op.request.code == c
    requires Step(w, op).1.Grant? ==>
               op.freshAccess !in Credentials(w.store) && op.freshRefresh !in Credentials(w.store)
    ensures Sim(Step(w, op).0, v, c, rho)
  {
    var w' := Step(w, op).0;
    forall k ensures SimCode(w', v, c, rho, k) {
      assert SimCode(w, v, c, rho, k);
    }
    forall t ensures SimAccess(w', v, c, rho, t) {
      assert SimAccess(w, v, c, rho, t);
    }
    forall t ensures SimRefresh(w', v, c, rho, t) {
      assert SimRefresh(w, v, c, rho, t);
    }
    assert SimFamilies(w', v, c, rho);
  }

  lemma SessionRefreshes(w: Server, v: Server, op: Op, c: Credential, rho: Renaming)
    requires Sim(w, v, c, rho) && op.RefreshOp? && SessionRefresh(w.store, c, op.token)
    requires Step(w, op).1.Grant? ==>
               op.freshAccess !in Credentials(w.store) && op.freshRefresh !in Credentials(w.store)
    ensures Sim(Step(w, op).0, v, c, rho)
  {
    var w' := Step(w, op).0;
    forall k ensures SimCode(w', v, c, rho, k) {
      assert SimCode(w, v, c, rho, k);
    }
    forall t ensures SimAccess(w', v, c, rho, t) {
      assert SimAccess(w, v, c, rho, t);
    }
    forall t ensures SimRefresh(w', v, c, rho, t) {
      assert SimRefresh(w, v, c, rho, t);
    }
  }

  // ---- everybody else's requests ----

  lemma OtherIssues(w: Server, v: Server, op: Op, c: Credential, rho: Renaming)
    requires Sim(w, v, c, rho) && Typed(w.store) && op.IssueCodeOp? && op.drawn != c
    requires op.drawn !in Credentials(w.store)
    ensures Sim(Step(w, op).0, Step(v, op).0, c, Renamed(w, v, op, c, rho))
  {
    var w', v', rho' := Step(w, op).0, Step(v, op).0, Renamed(w, v, op, c, rho);
    forall k ensures SimCode(w', v', c, rho', k) {
      assert SimCode(w, v, c, rho, k);
    }
    forall t ensures SimAccess(w', v', c, rho', t) {
      assert SimAccess(w, v, c, rho, t);
    }
    forall t ensures SimRefresh(w', v', c, rho', t) {
      assert SimRefresh(w, v, c, rho, t);
    }
  }

  /** A grant to another family, on both sides. */
  lemma OtherGranted(w: Server, v: Server, c: Credential, rho: Renaming, clientId: Text, f: nat,
                     access: Credential, refresh: Credential)
    requires Sim(w, v, c, rho) && f in rho
    ensures Sim(w.(store := IssueUserTokens(w.store, clientId, f, w.now, access, refresh)),
                v.(store := IssueUserTokens(v.store, clientId, rho[f], v.now, access, refresh)), c, rho)
  {
    var w' := w.(store := IssueUserTokens(w.store, clientId, f, w.now, access, refresh));
    var v' := v.(store := IssueUserTokens(v.store, clientId, rho[f], v.now, access, refresh));
    forall k ensures SimCode(w', v', c, rho, k) {
      assert SimCode(w, v, c, rho, k);
    }
    forall t ensures SimAccess(w', v', c, rho, t) {
      assert SimAccess(w, v, c, rho, t);
    }
    forall t ensures SimRefresh(w', v', c, rho, t) {
      assert SimRefresh(w, v, c, rho, t);
    }
  }

  lemma OtherMarksRedeemed(w: Server, v: Server, c: Credential, rho: Renaming, k: Credential)
    requires Sim(w, v, c, rho) && k != c && k in w.store.codes && k in v.store.codes
    ensures Sim(w.(store := w.store.(codes := w.store.codes[k := w.store.codes[k].(redeemed := true)])),
                v.(store := v.store.(codes := v.store.codes[k := v.store.codes[k].(redeemed := true)])), c, rho)
  {
    var w' := w.(store := w.store.(codes := w.store.codes[k := w.store.codes[k].(redeemed := true)]));
    var v' := v.(store := v.store.(codes := v.store.codes[k := v.store.codes[k].(redeemed := true)]));
    assert SimCode(w, v, c, rho, k);
    forall l ensures SimCode(w', v', c, rho, l) {
      assert SimCode(w, v, c, rho, l);
    }
    forall t ensures SimAccess(w', v', c, rho, t) {
      assert SimAccess(w, v, c, rho, t);
    }
    forall t ensures SimRefresh(w', v', c, rho, t) {
      assert SimRefresh(w, v, c, rho, t);
    }
  }

  lemma OtherRevokes(w: Server, v: Server, c: Credential, rho: Renaming, f: nat)
    requires Sim(w, v, c, rho) && f in rho
    ensures Sim(w.(store := w.store.(revokedFamilies := w.store.revokedFamilies + {f})),
                v.(store := v.store.(revokedFamilies := v.store.revokedFamilies + {rho[f]})), c, rho)
  {
    var w' := w.(store := w.store.(revokedFamilies := w.store.revokedFamilies + {f}));
    var v' := v.(store := v.store.(revokedFamilies := v.store.revokedFamilies + {rho[f]}));
    forall k ensures SimCode(w', v', c, rho, k) {
      assert SimCode(w, v, c, rho, k);
    }
    forall t ensures SimAccess(w', v', c, rho, t) {
      assert SimAccess(w, v, c, rho, t);
    }
    forall t ensures SimRefresh(w', v', c, rho, t) {
      assert SimRefresh(w, v, c, rho, t);
    }
  }

  function Spend(w: Server, t: Credential): Server
    requires t in w.store.refreshTokens
  {
    w.(store := w.store.(refreshTokens := w.store.refreshTokens[t := w.store.refreshTokens[t].(spent := true)]))
  }

  lemma OtherSpends(w: Server, v: Server, c: Credential, rho: Renaming, k: Credential)
    requires Sim(w, v, c, rho) && k in w.store.refreshTokens && k in v.store.refreshTokens
    ensures Sim(Spend(w, k), Spend(v, k), c, rho)
  {
    var w', v' := Spend(w, k), Spend(v, k);
    forall l ensures SimCode(w', v', c, rho, l) {
      assert SimCode(w, v, c, rho, l);
    }
    forall t ensures SimAccess(w', v', c, rho, t) {
      assert SimAccess(w, v, c, rho, t);
    }
    forall t ensures SimRefresh(w', v', c, rho, t) {
      assert SimRefresh(w, v, c, rho, t) && SimRefresh(w, v, c, rho, k);
    }
  }

  lemma OtherRedeems(w: Server, v: Server, op: Op, c: Credential, rho: Renaming)
    requires Sim(w, v, c, rho) && op.RedeemOp? && op.request.code != c
    ensures Sim(Step(w, op).0, Step(v, op).0, c, rho)
  {
    var k := op.request.code;
    SameAnswer(w, v, op, c, rho);
    assert SimCode(w, v, c, rho, k);
    if Step(w, op).1.Grant? {
      OtherMarksRedeemed(w, v, c, rho, k);
      var w1 := w.(store := w.store.(codes := w.store.codes[k := w.store.codes[k].(redeemed := true)]));
      var v1 := v.(store := v.store.(codes := v.store.codes[k := v.store.codes[k].(redeemed := true)]));
      OtherGranted(w1, v1, c, rho, op.request.clientId, w.store.codes[k].family, op.freshAccess, op.freshRefresh);
    } else if k in w.store.codes && w.store.codes[k].clientId == op.request.clientId && w.store.codes[k].redeemed {
      OtherRevokes(w, v, c, rho, w.store.codes[k].family);
    } else {
      assert Step(w, op).0 == w && Step(v, op).0 == v;
    }
  }

  lemma OtherRefreshes(w: Server, v: Server, op: Op, c: Credential, rho: Renaming)
    requires Sim(w, v, c, rho) && op.RefreshOp? && !SessionRefresh(w.store, c, op.token)
    ensures Sim(Step(w, op).0, Step(v, op).0, c, rho)
  {
    var k := op.token;
    SameAnswer(w, v, op, c, rho);
    assert SimRefresh(w, v, c, rho, k);
    if Step(w, op).1.Grant? {
      OtherSpends(w, v, c, rho, k);
      var w1 := Spend(w, k);
      var v1 := Spend(v, k);
      OtherGranted(w1, v1, c, rho, op.clientId, w.store.refreshTokens[k].family, op.freshAccess, op.freshRefresh);
    }
  }

  lemma OtherAppToken(w: Server, v: Server, op: Op, c: Credential, rho: Renaming)
    requires Sim(w, v, c, rho) && op.AppTokenOp?
    ensures Sim(Step(w, op).0, Step(v, op).0, c, rho)
  {
    var w', v' := Step(w, op).0, Step(v, op).0;
    forall k ensures SimCode(w', v', c, rho, k) {
      assert SimCode(w, v, c, rho, k);
    }
    forall t ensures SimAccess(w', v', c, rho, t) {
      assert SimAccess(w, v, c, rho, t);
    }
    forall t ensures SimRefresh(w', v', c, rho, t) {
      assert SimRefresh(w, v, c, rho, t);
    }
  }

  lemma OtherAdvances(w: Server, v: Server, delta: Duration, c: Credential, rho: Renaming)
    requires Sim(w, v, c, rho)
    ensures Sim(Step(w, AdvanceOp(delta)).0, Step(v, AdvanceOp(delta)).0, c, rho)
  {
    var w', v' := Step(w, AdvanceOp(delta)).0, Step(v, AdvanceOp(delta)).0;
    assert forall k | SimCode(w, v, c, rho, k) :: SimCode(w', v', c, rho, k);
    assert forall t | SimAccess(w, v, c, rho, t) :: SimAccess(w', v', c, rho, t);
    assert forall t | SimRefresh(w, v, c, rho, t) :: SimRefresh(w', v', c, rho, t);
  }

  lemma FollowStep(w: Server, v: Server, op: Op, c: Credential, rho: Renaming)
    requires Sim(w, v, c, rho) && Typed(w.store) && Drawn(w, op)
    ensures Sim(Step(w, op).0, Follow(w, v, op, c), c, Renamed(w, v, op, c, rho))
  {
    if OnSession(w, op, c) {
      SessionStep(w, v, op, c, rho);
    } else {
      HandedDrawn(w, op);
      match op
      case IssueCodeOp(_, _, _, _) => OtherIssues(w, v, op, c, rho);
      case RedeemOp(_, _, _) => OtherRedeems(w, v, op, c, rho);
      case RefreshOp(_, _, _, _) => OtherRefreshes(w, v, op, c, rho);
      case AppTokenOp(_, _) => OtherAppToken(w, v, op, c, rho);
      case InfoOp(_) =>
      case AdvanceOp(delta) => OtherAdvances(w, v, delta, c, rho);
    }
  }

  // ---- whole runs ----

  /** A request that is kept heads the erased run, with the same answer. */
  lemma KeptRequest(w: Server, v: Server, ops: seq<Op>, c: Credential, rho: Renaming)
    requires ops != [] && Sim(w, v, c, rho) && Drawn(w, ops[0]) && !OnSession(w, ops[0], c)
    ensures var (v', answer) := Step(v, ops[0]);
            var w', erased := Step(w, ops[0]).0, Erase(w, ops, c);
            var rest := Erase(w', ops[1..], c);
            && Answers(v, erased) == [answer] + Answers(v', rest)
            && OtherAnswers(w, ops, c) == [answer] + OtherAnswers(w', ops[1..], c)
            && After(v, erased) == After(v', rest)
            && (ValidRun(v', rest) ==> ValidRun(v, erased))
  {
    SameAnswer(w, v, ops[0], c, rho);
    StillDrawn(w, v, ops[0], c, rho);
    RunCons(v, ops[0], Erase(Step(w, ops[0]).0, ops[1..], c));
  }

  lemma Followed(w: Server, v: Server, op: Op, c: Credential, rho: Renaming)
    requires Sim(w, v, c, rho) && Valid(w.store) && Drawn(w, op)
    ensures Sim(Step(w, op).0, Follow(w, v, op, c), c, Renamed(w, v, op, c, rho)) && Valid(Step(w, op).0.store)
  {
    FollowStep(w, v, op, c, rho);
    StepValid(w, op);
  }

  lemma {:induction false} RunSimulated(w: Server, v: Server, ops: seq<Op>, c: Credential, rho: Renaming)
    returns (rho': Renaming)
    requires Sim(w, v, c, rho) && Valid(w.store) && ValidRun(w, ops)
    ensures Answers(v, Erase(w, ops, c)) == OtherAnswers(w, ops, c)
    ensures ValidRun(v, Erase(w, ops, c))
    ensures Sim(After(w, ops), After(v, Erase(w, ops, c)), c, rho')
    decreases |ops|
  {
    if ops == [] {
      rho' := rho;
    } else {
      var op, w', rest := ops[0], Step(w, ops[0]).0, Erase(Step(w, ops[0]).0, ops[1..], c);
      Followed(w, v, op, c, rho);
      rho' := RunSimulated(w', Follow(w, v, op, c), ops[1..], c, Renamed(w, v, op, c, rho));
      if OnSession(w, op, c) {
        assert Erase(w, ops, c) == rest;
      } else {
        KeptRequest(w, v, ops, c, rho);
      }
    }
  }

  lemma SimAtBoot(accessTokenLifetime: Duration, authorizationCodeLifetime: Duration, c: Credential)
    ensures var w := Boot(accessTokenLifetime, authorizationCodeLifetime); Sim(w, w, c, map[])
  {
  }

  /** Erasing one authorization from any run leaves every other answer unchanged and keeps the run
      valid, and whatever is asked at its end outside the session gets the same answer: no code, no
      access or refresh token of anyone else's has changed. */
  lemma SessionsIndependent(accessTokenLifetime: Duration, authorizationCodeLifetime: Duration,
                            ops: seq<Op>, c: Credential)
    requires ValidRun(Boot(accessTokenLifetime, authorizationCodeLifetime), ops)
    ensures var w := Boot(accessTokenLifetime, authorizationCodeLifetime);
            var w', v' := After(w, ops), After(w, Erase(w, ops, c));
            && ValidRun(w, Erase(w, ops, c))
            && Answers(w, Erase(w, ops, c)) == OtherAnswers(w, ops, c)
            && v'.now == w'.now
            && forall op | !OnSession(w', op, c) :: Step(v', op).1 == Step(w', op).1
  {
    var w := Boot(accessTokenLifetime, authorizationCodeLifetime);
    NewStoreValid(accessTokenLifetime, authorizationCodeLifetime);
    SimAtBoot(accessTokenLifetime, authorizationCodeLifetime, c);
    var rho := RunSimulated(w, w, ops, c, map[]);
    var w', v' := After(w, ops), After(w, Erase(w, ops, c));
    forall op | !OnSession(w', op, c) ensures Step(v', op).1 == Step(w', op).1 {
      SameAnswer(w', v', op, c, rho);
    }
  }
}
