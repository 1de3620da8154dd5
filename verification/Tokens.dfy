/** The client's token arithmetic: what it persists, and why its expiry margin is safe. */
module Tokens {
  import opened Time
  import opened StoreModel
  import Runs

  const EXPIRY_MARGIN_SECS := 60

  datatype TokenResponse = TokenResponse(accessToken: Credential, refreshToken: Credential, expiresIn: nat)

  /** Times are whole unix seconds. */
  datatype Tokens = Tokens(accessToken: Credential, refreshToken: Credential, expiresAt: nat)

  function SaturatingSub(a: nat, b: nat): nat {
    if a < b then 0 else a - b
  }

  function FromResponse(response: TokenResponse, now: nat): Tokens {
    Tokens(response.accessToken, response.refreshToken, now + SaturatingSub(response.expiresIn, EXPIRY_MARGIN_SECS))
  }

  predicate IsExpired(tokens: Tokens, now: nat) {
    now >= tokens.expiresAt
  }

  /** The client's clock: whole seconds, `epoch` nanoseconds ahead of the server's. */
  function ClientSecs(epoch: nat, t: Duration): nat {
    (epoch + t) / NANOS_PER_SEC
  }

  /** What the client thinks at `t` of a token answered at `received`. */
  predicate BelievedValid(epoch: nat, lifetimeSecs: nat, received: Duration, t: Duration) {
    ClientSecs(epoch, t) < ClientSecs(epoch, received) + SaturatingSub(lifetimeSecs, EXPIRY_MARGIN_SECS)
  }

  lemma BelievedValidMeaning(epoch: nat, response: TokenResponse, received: Duration, t: Duration)
    ensures BelievedValid(epoch, response.expiresIn, received, t)
        <==> !IsExpired(FromResponse(response, ClientSecs(epoch, received)), ClientSecs(epoch, t))
  {
  }

  /** With an answer delayed by no more than the margin, the client never believes in a token that
      the server has let expire. */
  lemma MarginIsSafe(epoch: nat, issuedAt: Duration, lifetimeSecs: nat, received: Duration, t: Duration)
    requires issuedAt <= received <= t
    requires received <= issuedAt + 60 * NANOS_PER_SEC
    requires BelievedValid(epoch, lifetimeSecs, received, t)
    ensures t < issuedAt + lifetimeSecs * NANOS_PER_SEC
  {
  }

  /** How late an answer may be, exactly: for a lifetime above the margin, the client is safe for
      ever if and only if the second in which the answer arrives starts within the margin. */
  lemma MarginIsExact(epoch: nat, issuedAt: Duration, lifetimeSecs: nat, received: Duration)
    requires issuedAt <= received && lifetimeSecs > 60
    requires issuedAt + lifetimeSecs * NANOS_PER_SEC <= MAX_NANOS
    ensures (forall t: Duration | received <= t && BelievedValid(epoch, lifetimeSecs, received, t) ::
               t < issuedAt + lifetimeSecs * NANOS_PER_SEC)
        <==> ClientSecs(epoch, received) * NANOS_PER_SEC <= epoch + issuedAt + 60 * NANOS_PER_SEC
  {
    var b := ClientSecs(epoch, received);
    var expiry := issuedAt + lifetimeSecs * NANOS_PER_SEC;
    if b * NANOS_PER_SEC <= epoch + issuedAt + EXPIRY_MARGIN_SECS * NANOS_PER_SEC {
      forall t: Duration | received <= t && BelievedValid(epoch, lifetimeSecs, received, t)
        ensures t < expiry
      {
        var a := ClientSecs(epoch, t);
        assert epoch + t < a * NANOS_PER_SEC + NANOS_PER_SEC;
      }
    } else {
      var t: Duration := if received <= expiry then expiry else received;
      var a := ClientSecs(epoch, t);
      assert a * NANOS_PER_SEC <= epoch + t;
      assert BelievedValid(epoch, lifetimeSecs, received, t);
    }
  }

  lemma {:induction false} TimePasses(w: Server, ops: seq<Op>)
    ensures w.now <= After(w, ops).now
    decreases |ops|
  {
    if ops != [] {
      TimePasses(Step(w, ops[0]).0, ops[1..]);
    }
  }

  /** Client and server together: a token that the client still believes in, from a grant answered
      within the margin, is accepted by the server unless its session was revoked, whatever other
      requests came in between. */
  lemma BelievedTokenIsAccepted(w: Server, op: Op, ops: seq<Op>, epoch: nat, lifetimeSecs: nat, received: Duration)
    requires op.RedeemOp? || op.RefreshOp?
    requires Drawn(w, op) && Step(w, op).1.Grant? && ValidRun(Step(w, op).0, ops)
    requires w.store.accessTokenLifetime == lifetimeSecs * NANOS_PER_SEC
    requires w.now + w.store.accessTokenLifetime <= MAX_NANOS
    requires w.now <= received <= After(Step(w, op).0, ops).now
    requires received <= w.now + EXPIRY_MARGIN_SECS * NANOS_PER_SEC
    requires BelievedValid(epoch, lifetimeSecs, received, After(Step(w, op).0, ops).now)
    ensures var w' := After(Step(w, op).0, ops);
            var entry := Step(w, op).0.store.accessTokens[op.freshAccess];
            && Step(w, op).1.issued.accessToken == op.freshAccess
            && (AccessTokenInfo(w'.store, op.freshAccess, w'.now).Some?
                <==> entry.family.value !in w'.store.revokedFamilies)
  {
    var w' := After(Step(w, op).0, ops);
    Runs.RunPersists(Step(w, op).0, ops);
    MarginIsSafe(epoch, w.now, lifetimeSecs, received, w'.now);
  }
}
