/** What holds over whole runs of the server: credentials are never reused, entries are never
    lost, revocation is permanent and exact, and each code and refresh token has one winner. */
module Runs {
  import opened Wrappers
  import opened Bytes
  import opened Time
  import opened StoreModel
  import opened StoreInvariant
  import Pkce

  // ---- entries are never lost or altered ----

  predicate SameCode(a: AuthCode, b: AuthCode) {
    a.(redeemed := false) == b.(redeemed := false) && (a.redeemed ==> b.redeemed)
  }

  predicate SameRefresh(a: RefreshToken, b: RefreshToken) {
    a.(spent := false) == b.(spent := false) && (a.spent ==> b.spent)
  }

  /** Later stores know everything earlier ones did; only `redeemed`, `spent` and revocation
      change, and only one way. */
  ghost predicate Persists(s: StoreState, s': StoreState) {
    && s'.authorizationCodeLifetime == s.authorizationCodeLifetime
    && s'.accessTokenLifetime == s.accessTokenLifetime
    && (forall c | c in s.codes :: c in s'.codes && SameCode(s.codes[c], s'.codes[c]))
    && (forall t | t in s.accessTokens :: t in s'.accessTokens && s'.accessTokens[t] == s.accessTokens[t])
    && (forall t | t in s.refreshTokens ::
          t in s'.refreshTokens && SameRefresh(s.refreshTokens[t], s'.refreshTokens[t]))
    && s.revokedFamilies <= s'.revokedFamilies
  }

  lemma StepPersists(w: Server, op: Op)
    requires Drawn(w, op)
    ensures Persists(w.store, Step(w, op).0.store)
  {
    HandedDrawn(w, op);
  }

  lemma {:induction false} RunPersists(w: Server, ops: seq<Op>)
    requires ValidRun(w, ops)
    ensures Persists(w.store, After(w, ops).store)
    decreases |ops|
  {
    if ops != [] {
      StepPersists(w, ops[0]);
      RunPersists(Step(w, ops[0]).0, ops[1..]);
    }
  }

  // ---- credentials are unique across everything ever issued ----

  function HandedOut(answers: seq<Answer>): seq<Credential> {
    if answers == [] then [] else Handed(answers[0]) + HandedOut(answers[1..])
  }

  ghost function Elements<T>(s: seq<T>): set<T> { set x | x in s }

  lemma ElementsConcat<T>(a: seq<T>, b: seq<T>)
    ensures Elements(a + b) == Elements(a) + Elements(b)
  {
  }

  lemma DistinctConcat<T>(a: seq<T>, b: seq<T>)
    requires Distinct(a) && Distinct(b) && forall x | x in b :: x !in a
    ensures Distinct(a + b)
  {
    var s := a + b;
    forall i, j | 0 <= i < j < |s| ensures s[i] != s[j] {
      if i < |a| <= j {
        assert s[i] in a && s[j] in b;
      }
    }
  }

  lemma StepIssues(w: Server, op: Op)
    ensures Credentials(Step(w, op).0.store) == Credentials(w.store) + Elements(Handed(Step(w, op).1))
  {
  }

  /** Over any run, all codes, access tokens and refresh tokens handed out are pairwise distinct
      and new, and the store holds exactly what it held plus what was handed out. */
  lemma {:induction false} CredentialsUnique(w: Server, ops: seq<Op>)
    requires ValidRun(w, ops)
    ensures Distinct(HandedOut(Answers(w, ops)))
    ensures forall c | c in HandedOut(Answers(w, ops)) :: c !in Credentials(w.store)
    ensures Credentials(After(w, ops).store) == Credentials(w.store) + Elements(HandedOut(Answers(w, ops)))
    decreases |ops|
  {
    if ops != [] {
      var w' := Step(w, ops[0]).0;
      var first, rest := Handed(Step(w, ops[0]).1), HandedOut(Answers(w', ops[1..]));
      StepIssues(w, ops[0]);
      CredentialsUnique(w', ops[1..]);
      assert HandedOut(Answers(w, ops)) == first + rest;
      ElementsConcat(first, rest);
      forall c | c in rest ensures c !in first && c !in Credentials(w.store) {
        assert c !in Credentials(w'.store);
      }
      DistinctConcat(first, rest);
    }
  }

  /** From the start: the store holds what was handed out and nothing else, each once and each
      in one map only. */
  lemma CredentialsFromBoot(accessTokenLifetime: Duration, authorizationCodeLifetime: Duration, ops: seq<Op>)
    requires ValidRun(Boot(accessTokenLifetime, authorizationCodeLifetime), ops)
    ensures var w := Boot(accessTokenLifetime, authorizationCodeLifetime);
            var issued := HandedOut(Answers(w, ops));
            && Distinct(issued)
            && Credentials(After(w, ops).store) == Elements(issued)
            && DisjointKeys(After(w, ops).store)
  {
    var w := Boot(accessTokenLifetime, authorizationCodeLifetime);
    CredentialsUnique(w, ops);
    NewStoreValid(accessTokenLifetime, authorizationCodeLifetime);
    RunValid(w, ops);
  }

  // ---- one winner for each code ----

  predicate RedeemsCode(op: Op, c: Credential) {
    op.RedeemOp? && op.request.code == c
  }

  /** A redemption that the code's record admits at this time. */
  predicate Eligible(lifetime: Duration, code: AuthCode, c: Credential, op: Op, now: Duration) {
    RedeemsCode(op, c) && RedeemableBy(lifetime, code, op.request, now)
  }

  predicate EligibleAt(w: Server, ops: seq<Op>, c: Credential, i: nat)
    requires c in w.store.codes && i < |ops|
  {
    Eligible(w.store.authorizationCodeLifetime, w.store.codes[c], c, ops[i], After(w, ops[..i]).now)
  }

  /** One step before the redemption: an eligible one redeems, anything else leaves the record. */
  lemma UnredeemedStep(w: Server, op: Op, c: Credential)
    requires Drawn(w, op) && c in w.store.codes && !w.store.codes[c].redeemed
    ensures var (w', answer) := Step(w, op);
            && c in w'.store.codes
            && w'.store.authorizationCodeLifetime == w.store.authorizationCodeLifetime
            && (if Eligible(w.store.authorizationCodeLifetime, w.store.codes[c], c, op, w.now)
                then answer.Grant? && w'.store.codes[c].redeemed
                else w'.store.codes[c] == w.store.codes[c] && (RedeemsCode(op, c) ==> answer == Refused))
  {
    HandedDrawn(w, op);
  }

  lemma {:induction false} RedeemedIsRefused(w: Server, ops: seq<Op>, c: Credential, i: nat)
    requires ValidRun(w, ops) && c in w.store.codes && w.store.codes[c].redeemed
    requires i < |ops| && RedeemsCode(ops[i], c)
    ensures Answers(w, ops)[i] == Refused
    decreases |ops|
  {
    StepPersists(w, ops[0]);
    if i > 0 {
      RedeemedIsRefused(Step(w, ops[0]).0, ops[1..], c, i - 1);
    }
  }

  lemma TimeShift(w: Server, ops: seq<Op>, i: nat)
    requires 0 < i <= |ops|
    ensures After(w, ops[..i]) == After(Step(w, ops[0]).0, ops[1..][..i - 1])
  {
    assert ops[..i][1..] == ops[1..][..i - 1];
  }

  /** Whatever the order of the requests, a redemption succeeds exactly when it is the first
      eligible one. */
  lemma {:induction false} CodeWinner(w: Server, ops: seq<Op>, c: Credential, j: nat)
    requires ValidRun(w, ops) && c in w.store.codes && !w.store.codes[c].redeemed
    requires j < |ops| && RedeemsCode(ops[j], c)
    ensures Answers(w, ops)[j].Grant? <==>
            EligibleAt(w, ops, c, j) && forall i | 0 <= i < j :: !EligibleAt(w, ops, c, i)
    decreases |ops|
  {
    var w' := Step(w, ops[0]).0;
    UnredeemedStep(w, ops[0], c);
    assert ops[..0] == [];
    if j > 0 {
      TimeShift(w, ops, j);
      if EligibleAt(w, ops, c, 0) {
        RedeemedIsRefused(w', ops[1..], c, j - 1);
      } else {
        CodeWinner(w', ops[1..], c, j - 1);
        forall i | 1 <= i < j
          ensures EligibleAt(w, ops, c, i) <==> EligibleAt(w', ops[1..], c, i - 1)
        {
          TimeShift(w, ops, i);
        }
        if forall i | 0 <= i < j :: !EligibleAt(w, ops, c, i) {
          forall i | 0 <= i < j - 1 ensures !EligibleAt(w', ops[1..], c, i) {
            assert !EligibleAt(w, ops, c, i + 1);
          }
        }
      }
    }
  }

  // ---- the same, counted from the request that issued the code ----

  /** Some request of the run is eligible. */
  ghost predicate Won(w: Server, ops: seq<Op>, c: Credential)
    requires c in w.store.codes
  {
    exists i | 0 <= i < |ops| :: EligibleAt(w, ops, c, i)
  }

  lemma WonShift(w: Server, ops: seq<Op>, c: Credential)
    requires ops != [] && Drawn(w, ops[0]) && c in w.store.codes && !w.store.codes[c].redeemed
    requires !EligibleAt(w, ops, c, 0)
    ensures c in Step(w, ops[0]).0.store.codes
    ensures Won(w, ops, c) <==> Won(Step(w, ops[0]).0, ops[1..], c)
  {
    var w', rest := Step(w, ops[0]).0, ops[1..];
    UnredeemedStep(w, ops[0], c);
    assert ops[..0] == [];
    forall i | 1 <= i < |ops| ensures EligibleAt(w, ops, c, i) <==> EligibleAt(w', rest, c, i - 1) {
      TimeShift(w, ops, i);
    }
    if i :| 0 <= i < |rest| && EligibleAt(w', rest, c, i) {
      assert EligibleAt(w, ops, c, i + 1);
    }
  }

  /** A code is redeemed by a run exactly when some request of it is eligible, and is otherwise as
      it was: wrong clients, URIs and verifiers do not burn it. */
  lemma {:induction false} RedeemedExactly(w: Server, ops: seq<Op>, c: Credential)
    requires ValidRun(w, ops) && c in w.store.codes && !w.store.codes[c].redeemed
    ensures c in After(w, ops).store.codes
    ensures After(w, ops).store.codes[c] == w.store.codes[c].(redeemed := Won(w, ops, c))
    decreases |ops|
  {
    if ops != [] {
      var w', rest := Step(w, ops[0]).0, ops[1..];
      UnredeemedStep(w, ops[0], c);
      assert ops[..0] == [];
      if EligibleAt(w, ops, c, 0) {
        StepPersists(w, ops[0]);
        RunPersists(w', rest);
      } else {
        WonShift(w, ops, c);
        RedeemedExactly(w', rest, c);
      }
    }
  }

  /** The server just after the k-th request of a run. */
  function Since(w: Server, ops: seq<Op>, k: nat): Server
    requires k < |ops|
  {
    Step(After(w, ops[..k]), ops[k]).0
  }

  /** The run seen from there. */
  lemma Resume(w: Server, ops: seq<Op>, k: nat, i: nat)
    requires k < i <= |ops|
    ensures After(Since(w, ops, k), ops[k + 1..][..i - k - 1]) == After(w, ops[..i])
    ensures ValidRun(w, ops) ==> Drawn(After(w, ops[..k]), ops[k]) && ValidRun(Since(w, ops, k), ops[k + 1..])
    ensures i < |ops| ==> Answers(Since(w, ops, k), ops[k + 1..])[i - k - 1] == Answers(w, ops)[i]
    ensures Answers(w, ops)[k] == Step(After(w, ops[..k]), ops[k]).1
    ensures ValidRun(w, ops) ==> Persists(w.store, After(w, ops[..k]).store)
  {
    var a, rest := ops[..k], ops[k + 1..];
    assert ops == a + ([ops[k]] + rest) && ops[..i] == a + ([ops[k]] + rest[..i - k - 1]);
    RunConcat(w, a, [ops[k]] + rest);
    RunConcat(w, a, [ops[k]] + rest[..i - k - 1]);
    assert ([ops[k]] + rest)[1..] == rest;
    assert ([ops[k]] + rest[..i - k - 1])[1..] == rest[..i - k - 1];
    if ValidRun(w, ops) {
      RunPersists(w, a);
    }
  }

  /** The i-th request redeems the code issued by the k-th: same client and redirect URI, a
      verifier for its challenge, and less than the code's lifetime later. */
  predicate EligibleSince(w: Server, ops: seq<Op>, k: nat, i: nat)
    requires k < i < |ops| && ops[k].IssueCodeOp?
  {
    && RedeemsCode(ops[i], ops[k].drawn)
    && ops[i].request.clientId == ops[k].clientId
    && ops[i].request.redirectUri == ops[k].redirectUri
    && Pkce.VerifyS256(ops[i].request.codeVerifier, ops[k].codeChallenge)
    && After(w, ops[..i]).now < SaturatingAdd(After(w, ops[..k]).now, w.store.authorizationCodeLifetime)
  }

  lemma EligibleResumed(w: Server, ops: seq<Op>, k: nat, i: nat)
    requires ValidRun(w, ops) && k < i < |ops| && ops[k].IssueCodeOp?
    ensures var c, w' := ops[k].drawn, Since(w, ops, k);
            && c in w'.store.codes && !w'.store.codes[c].redeemed
            && (EligibleSince(w, ops, k, i) <==> EligibleAt(w', ops[k + 1..], c, i - k - 1))
  {
    Resume(w, ops, k, i);
  }

  lemma NoneResumed(w: Server, ops: seq<Op>, k: nat, j: nat, w': Server, rest: seq<Op>)
    requires ValidRun(w, ops) && k < j < |ops| && ops[k].IssueCodeOp?
    requires w' == Since(w, ops, k) && rest == ops[k + 1..] && ops[k].drawn in w'.store.codes
    ensures (forall i | k < i < j :: !EligibleSince(w, ops, k, i)) <==>
            forall i | 0 <= i < j - k - 1 :: !EligibleAt(w', rest, ops[k].drawn, i)
  {
    forall i | k < i < j
      ensures EligibleSince(w, ops, k, i) <==> EligibleAt(w', rest, ops[k].drawn, i - k - 1)
    {
      EligibleResumed(w, ops, k, i);
    }
    if forall i | k < i < j :: !EligibleSince(w, ops, k, i) {
      forall i | 0 <= i < j - k - 1 ensures !EligibleAt(w', rest, ops[k].drawn, i) {
        assert !EligibleSince(w, ops, k, i + k + 1);
      }
    }
  }

  lemma WinnerResumed(w: Server, ops: seq<Op>, k: nat, j: nat, c: Credential, w': Server, rest: seq<Op>, n: nat)
    requires ValidRun(w, ops) && k < j < |ops| && ops[k].IssueCodeOp?
    requires c == ops[k].drawn && w' == Since(w, ops, k) && rest == ops[k + 1..] && n == j - k - 1
    ensures c in w'.store.codes && !w'.store.codes[c].redeemed
    ensures EligibleAt(w', rest, c, n) <==> EligibleSince(w, ops, k, j)
    ensures (forall i | 0 <= i < n :: !EligibleAt(w', rest, c, i)) <==>
            forall i | k < i < j :: !EligibleSince(w, ops, k, i)
  {
    EligibleResumed(w, ops, k, j);
    NoneResumed(w, ops, k, j, w', rest);
  }

  /** The first eligible redemption since the code was issued is the one that succeeds. */
  lemma CodeWinnerInRun(w: Server, ops: seq<Op>, k: nat, j: nat)
    requires ValidRun(w, ops) && k < j < |ops|
    requires ops[k].IssueCodeOp? && RedeemsCode(ops[j], ops[k].drawn)
    ensures Answers(w, ops)[j].Grant? <==>
            EligibleSince(w, ops, k, j) && forall i | k < i < j :: !EligibleSince(w, ops, k, i)
  {
    var c, w', rest, n := ops[k].drawn, Since(w, ops, k), ops[k + 1..], j - k - 1;
    WinnerResumed(w, ops, k, j, c, w', rest, n);
    RestOfRun(w, ops, k, j, w', rest, n);
    CodeWinner(w', rest, c, n);
  }

  /** A code nobody was given redeems nothing. */
  lemma UnknownCodeIsRefused(w: Server, ops: seq<Op>, j: nat)
    requires ValidRun(w, ops) && j < |ops| && ops[j].RedeemOp?
    requires ops[j].request.code !in Credentials(w.store)
    requires ops[j].request.code !in HandedOut(Answers(w, ops[..j]))
    ensures Answers(w, ops)[j] == Refused
  {
    assert ops == ops[..j] + ops[j..];
    RunConcat(w, ops[..j], ops[j..]);
    CredentialsUnique(w, ops[..j]);
  }

  // ---- one winner for each refresh token ----

  predicate RefreshesToken(op: Op, t: Credential) {
    op.RefreshOp? && op.token == t
  }

  /** Its owner presents the refresh token. */
  predicate OwnerUse(owner: Text, t: Credential, op: Op) {
    RefreshesToken(op, t) && op.clientId == owner
  }

  predicate Dead(s: StoreState, t: Credential) {
    t in s.refreshTokens && (s.refreshTokens[t].spent || s.refreshTokens[t].family in s.revokedFamilies)
  }

  lemma {:induction false} DeadIsRefused(w: Server, ops: seq<Op>, t: Credential, i: nat)
    requires ValidRun(w, ops) && Dead(w.store, t)
    requires i < |ops| && RefreshesToken(ops[i], t)
    ensures Answers(w, ops)[i] == Refused
    decreases |ops|
  {
    StepPersists(w, ops[0]);
    if i > 0 {
      DeadIsRefused(Step(w, ops[0]).0, ops[1..], t, i - 1);
    }
  }

  lemma UnspentStep(w: Server, op: Op, t: Credential)
    requires Drawn(w, op) && t in w.store.refreshTokens && !w.store.refreshTokens[t].spent
    ensures var (w', answer) := Step(w, op);
            var entry := w.store.refreshTokens[t];
            && t in w'.store.refreshTokens
            && (if OwnerUse(entry.clientId, t, op)
                then Dead(w'.store, t) && (answer.Grant? <==> entry.family !in w.store.revokedFamilies)
                else w'.store.refreshTokens[t] == entry && (RefreshesToken(op, t) ==> answer == Refused))
  {
    HandedDrawn(w, op);
  }

  /** Whatever the order of the requests, a refresh succeeds exactly when it is its owner's first
      use of the token and the family is not revoked by then. */
  lemma {:induction false} RefreshWinner(w: Server, ops: seq<Op>, t: Credential, j: nat)
    requires ValidRun(w, ops) && t in w.store.refreshTokens && !w.store.refreshTokens[t].spent
    requires j < |ops| && RefreshesToken(ops[j], t)
    ensures var entry := w.store.refreshTokens[t];
            Answers(w, ops)[j].Grant? <==>
              && OwnerUse(entry.clientId, t, ops[j])
              && (forall i | 0 <= i < j :: !OwnerUse(entry.clientId, t, ops[i]))
              && entry.family !in After(w, ops[..j]).store.revokedFamilies
    decreases |ops|
  {
    var w', entry := Step(w, ops[0]).0, w.store.refreshTokens[t];
    UnspentStep(w, ops[0], t);
    if j == 0 {
      assert ops[..0] == [];
    } else {
      TimeShift(w, ops, j);
      if OwnerUse(entry.clientId, t, ops[0]) {
        DeadIsRefused(w', ops[1..], t, j - 1);
      } else {
        RefreshWinner(w', ops[1..], t, j - 1);
        assert forall i | 1 <= i < j :: ops[i] == ops[1..][i - 1];
        if forall i | 0 <= i < j - 1 :: !OwnerUse(entry.clientId, t, ops[1..][i]) {
          forall i | 0 <= i < j ensures !OwnerUse(entry.clientId, t, ops[i]) {
            assert i > 0 ==> ops[i] == ops[1..][i - 1];
          }
        }
        if forall i | 0 <= i < j :: !OwnerUse(entry.clientId, t, ops[i]) {
          forall i | 0 <= i < j - 1 ensures !OwnerUse(entry.clientId, t, ops[1..][i]) {
            assert ops[1..][i] == ops[i + 1];
          }
        }
      }
    }
  }

  /** Who a user grant is for. */
  function Grantee(op: Op): Text
    requires op.RedeemOp? || op.RefreshOp?
  {
    if op.RedeemOp? then op.request.clientId else op.clientId
  }

  lemma GrantedSince(w: Server, ops: seq<Op>, k: nat, t: Credential)
    requires ValidRun(w, ops) && k + 1 < |ops|
    requires (ops[k].RedeemOp? || ops[k].RefreshOp?) && t == ops[k].freshRefresh && Answers(w, ops)[k].Grant?
    ensures var s := Since(w, ops, k).store;
            && t in s.refreshTokens && !s.refreshTokens[t].spent && s.refreshTokens[t].clientId == Grantee(ops[k])
            && Answers(w, ops)[k].issued.refreshToken == Some(t)
  {
    Resume(w, ops, k, k + 1);
  }

  /** What the rest of a run answers, seen from the k-th request on. */
  lemma RestOfRun(w: Server, ops: seq<Op>, k: nat, j: nat, w': Server, rest: seq<Op>, n: nat)
    requires ValidRun(w, ops) && k < j < |ops|
    requires w' == Since(w, ops, k) && rest == ops[k + 1..] && n == j - k - 1
    ensures ValidRun(w', rest) && Answers(w', rest)[n] == Answers(w, ops)[j] && rest[n] == ops[j]
    ensures After(w', rest[..n]) == After(w, ops[..j])
  {
    Resume(w, ops, k, j);
  }

  lemma GrantResumed(w: Server, ops: seq<Op>, k: nat, j: nat, t: Credential, w': Server, rest: seq<Op>, n: nat)
    requires ValidRun(w, ops) && k < j < |ops| && (ops[k].RedeemOp? || ops[k].RefreshOp?)
    requires Answers(w, ops)[k].Grant? && t == ops[k].freshRefresh
    requires w' == Since(w, ops, k) && rest == ops[k + 1..] && n == j - k - 1
    ensures t in w'.store.refreshTokens && !w'.store.refreshTokens[t].spent
    ensures w'.store.refreshTokens[t].clientId == Grantee(ops[k])
    ensures Answers(w, ops)[k].issued.refreshToken == Some(t)
    ensures (forall i | k < i < j :: !OwnerUse(Grantee(ops[k]), t, ops[i])) <==>
            forall i | 0 <= i < n :: !OwnerUse(Grantee(ops[k]), t, rest[i])
  {
    GrantedSince(w, ops, k, t);
  }

  /** The refresh token handed out by a grant belongs to the client that asked for it; its first
      use by that client is the one that works, unless its family is revoked by then. */
  lemma RefreshWinnerInRun(w: Server, ops: seq<Op>, k: nat, j: nat)
    requires ValidRun(w, ops) && k < j < |ops|
    requires ops[k].RedeemOp? || ops[k].RefreshOp?
    requires Answers(w, ops)[k].Grant? && RefreshesToken(ops[j], ops[k].freshRefresh)
    ensures var t, s, s' := ops[k].freshRefresh, Since(w, ops, k).store, After(w, ops[..j]).store;
            && t in s.refreshTokens
            && Answers(w, ops)[k].issued.refreshToken == Some(t)
            && (Answers(w, ops)[j].Grant? <==>
                  && OwnerUse(Grantee(ops[k]), t, ops[j])
                  && (forall i | k < i < j :: !OwnerUse(Grantee(ops[k]), t, ops[i]))
                  && s.refreshTokens[t].family !in s'.revokedFamilies)
  {
    var t, w', rest, n := ops[k].freshRefresh, Since(w, ops, k), ops[k + 1..], j - k - 1;
    GrantResumed(w, ops, k, j, t, w', rest, n);
    RestOfRun(w, ops, k, j, w', rest, n);
    RefreshWinner(w', rest, t, n);
  }

  // ---- revocation ----

  ghost predicate FamilyFrozen(s: StoreState, s': StoreState, f: nat) {
    f in s'.revokedFamilies && AccessOf(s', f) == AccessOf(s, f) && RefreshOf(s', f) == RefreshOf(s, f)
  }

  lemma RevokedAtRedeem(w: Server, op: Op, f: nat)
    requires Typed(w.store) && Drawn(w, op) && f in w.store.revokedFamilies && op.RedeemOp?
    ensures FamilyFrozen(w.store, Step(w, op).0.store, f)
  {
    HandedDrawn(w, op);
    if Step(w, op).1.Grant? {
      UnredeemedHasNone(w.store, op.request.code);
    }
  }

  lemma RevokedAtRefresh(w: Server, op: Op, f: nat)
    requires Drawn(w, op) && f in w.store.revokedFamilies && op.RefreshOp?
    ensures FamilyFrozen(w.store, Step(w, op).0.store, f)
  {
    HandedDrawn(w, op);
  }

  lemma RevokedStep(w: Server, op: Op, f: nat)
    requires Typed(w.store) && Drawn(w, op) && f in w.store.revokedFamilies
    ensures FamilyFrozen(w.store, Step(w, op).0.store, f)
  {
    if op.RedeemOp? {
      RevokedAtRedeem(w, op, f);
    } else if op.RefreshOp? {
      RevokedAtRefresh(w, op, f);
    } else {
      HandedDrawn(w, op);
      assert Step(w, op).0.store.refreshTokens == w.store.refreshTokens;
    }
  }

  /** Once a family is revoked, in every continuation none of its access tokens is valid, none of
      its refresh tokens works for anyone, and no token joins it. */
  lemma {:induction false} RevokedForever(w: Server, ops: seq<Op>, f: nat)
    requires Valid(w.store) && ValidRun(w, ops) && f in w.store.revokedFamilies
    ensures var w' := After(w, ops);
            && f in w'.store.revokedFamilies
            && AccessOf(w'.store, f) == AccessOf(w.store, f)
            && RefreshOf(w'.store, f) == RefreshOf(w.store, f)
            && (forall t | t in AccessOf(w.store, f) :: AccessTokenInfo(w'.store, t, w'.now) == None)
            && (forall t, clientId, access, refresh | t in RefreshOf(w.store, f) ::
                  Refresh(w'.store, clientId, t, w'.now, access, refresh) == (w'.store, Err(InvalidGrant)))
    decreases |ops|
  {
    if ops != [] {
      RevokedStep(w, ops[0], f);
      StepValid(w, ops[0]);
      RevokedForever(Step(w, ops[0]).0, ops[1..], f);
    }
  }

  predicate OwnerRedeems(op: Op, c: Credential, owner: Text) {
    RedeemsCode(op, c) && op.request.clientId == owner
  }

  /** The i-th request redeemed the code and its owner presented it again in the j-th. */
  predicate ReplayAt(w: Server, ops: seq<Op>, c: Credential, owner: Text, i: nat, j: nat) {
    && i < j < |ops|
    && RedeemsCode(ops[i], c) && Answers(w, ops)[i].Grant?
    && OwnerRedeems(ops[j], c, owner)
  }

  ghost predicate Replayed(w: Server, ops: seq<Op>, c: Credential, owner: Text) {
    exists i: nat, j: nat :: ReplayAt(w, ops, c, owner, i, j)
  }

  /** How one step can revoke a family. */
  lemma RevokingStep(w: Server, op: Op, c: Credential)
    requires FamiliesOfCodes(w.store) && c in w.store.codes && Drawn(w, op)
    ensures var code := w.store.codes[c];
            code.family in Step(w, op).0.store.revokedFamilies <==>
            code.family in w.store.revokedFamilies || (code.redeemed && OwnerRedeems(op, c, code.clientId))
  {
  }

  lemma {:induction false} RevokedAfterRedemption(w: Server, ops: seq<Op>, c: Credential)
    requires Valid(w.store) && ValidRun(w, ops) && c in w.store.codes && w.store.codes[c].redeemed
    ensures var code := w.store.codes[c];
            code.family in After(w, ops).store.revokedFamilies <==>
            || code.family in w.store.revokedFamilies
            || exists j | 0 <= j < |ops| :: OwnerRedeems(ops[j], c, code.clientId)
    decreases |ops|
  {
    if ops != [] {
      var w', rest, owner := Step(w, ops[0]).0, ops[1..], w.store.codes[c].clientId;
      RevokingStep(w, ops[0], c);
      StepValid(w, ops[0]);
      StepPersists(w, ops[0]);
      RevokedAfterRedemption(w', rest, c);
      if j :| 0 <= j < |rest| && OwnerRedeems(rest[j], c, owner) {
        assert OwnerRedeems(ops[j + 1], c, owner);
      }
      if j :| 0 <= j < |ops| && OwnerRedeems(ops[j], c, owner) {
        assert j > 0 ==> OwnerRedeems(rest[j - 1], c, owner);
      }
    }
  }

  /** A replay later in the run is a replay in the run. */
  lemma ReplayShift(w: Server, ops: seq<Op>, c: Credential, owner: Text, i: nat, j: nat)
    requires ops != []
    ensures ReplayAt(w, ops, c, owner, i + 1, j + 1) <==> ReplayAt(Step(w, ops[0]).0, ops[1..], c, owner, i, j)
  {
  }

  lemma ReplayedShift(w: Server, ops: seq<Op>, c: Credential, owner: Text)
    requires ops != [] && !(RedeemsCode(ops[0], c) && Step(w, ops[0]).1.Grant?)
    ensures Replayed(w, ops, c, owner) <==> Replayed(Step(w, ops[0]).0, ops[1..], c, owner)
  {
    if i: nat, j: nat :| ReplayAt(Step(w, ops[0]).0, ops[1..], c, owner, i, j) {
      ReplayShift(w, ops, c, owner, i, j);
    }
    if i: nat, j: nat :| ReplayAt(w, ops, c, owner, i, j) {
      assert i > 0;
      ReplayShift(w, ops, c, owner, i - 1, j - 1);
    }
  }

  /** Revocation is exact: the family of a code not yet redeemed ends up revoked exactly when the
      run redeems the code and its owner then presents it again. */
  lemma {:induction false} RevokedExactly(w: Server, ops: seq<Op>, c: Credential)
    requires Valid(w.store) && ValidRun(w, ops) && c in w.store.codes && !w.store.codes[c].redeemed
    ensures var code := w.store.codes[c];
            code.family in After(w, ops).store.revokedFamilies <==> Replayed(w, ops, c, code.clientId)
    decreases |ops|
  {
    if ops == [] {
      UnredeemedHasNone(w.store, c);
    } else {
      var w', owner := Step(w, ops[0]).0, w.store.codes[c].clientId;
      UnredeemedStep(w, ops[0], c);
      if w'.store.codes[c].redeemed {
        RevokedWhenRedeemedFirst(w, ops, c);
      } else {
        StepValid(w, ops[0]);
        RevokedExactly(w', ops[1..], c);
        ReplayedShift(w, ops, c, owner);
      }
    }
  }

  lemma RedeemedNow(w: Server, op: Op, c: Credential)
    requires Valid(w.store) && Drawn(w, op) && c in w.store.codes && !w.store.codes[c].redeemed
    requires RedeemsCode(op, c) && Step(w, op).1.Grant?
    ensures var s := Step(w, op).0.store;
            && Valid(s) && c in s.codes && s.codes[c] == w.store.codes[c].(redeemed := true)
            && w.store.codes[c].family !in s.revokedFamilies && op.request.clientId == w.store.codes[c].clientId
  {
    UnredeemedHasNone(w.store, c);
    StepValid(w, op);
  }

  lemma RevokedWhenRedeemedFirst(w: Server, ops: seq<Op>, c: Credential)
    requires Valid(w.store) && ValidRun(w, ops) && c in w.store.codes && !w.store.codes[c].redeemed
    requires ops != [] && RedeemsCode(ops[0], c) && Step(w, ops[0]).1.Grant?
    ensures var code := w.store.codes[c];
            code.family in After(w, ops).store.revokedFamilies <==> Replayed(w, ops, c, code.clientId)
  {
    var w', rest, owner := Step(w, ops[0]).0, ops[1..], w.store.codes[c].clientId;
    RedeemedNow(w, ops[0], c);
    RevokedAfterRedemption(w', rest, c);
    if j :| 0 <= j < |rest| && OwnerRedeems(rest[j], c, owner) {
      assert ReplayAt(w, ops, c, owner, 0, j + 1);
    }
    if i: nat, j: nat :| ReplayAt(w, ops, c, owner, i, j) {
      assert OwnerRedeems(rest[j - 1], c, owner);
    }
  }

  /** An app token dies only of age, whatever happens to the families. */
  lemma AppTokenLivesUntilExpiry(w: Server, ops: seq<Op>, t: Credential)
    requires Valid(w.store) && ValidRun(w, ops) && t in w.store.accessTokens && w.store.accessTokens[t].kind.App?
    ensures var w' := After(w, ops);
            AccessTokenInfo(w'.store, t, w'.now).Some? <==> w'.now < w.store.accessTokens[t].expiresAt
  {
    RunPersists(w, ops);
    assert TypedAccess(w.store, w.store.accessTokens[t]);
  }
}
