/** That the failing inputs exist: for each promise that holds only under a condition, a case where
    the condition fails. */
module Witnesses {
  import opened Wrappers
  import opened Bytes
  import opened Time
  import opened StoreModel
  import opened RefreshMachine
  import Authorize
  import Callback
  import Config
  import Form
  import Names
  import Redirected
  import RefreshProtocol
  import StoreInvariant
  import TokenFile
  import Tokens

  // ---- a redirect URI ----

  const PIECE: Text := "x?"

  /** A `/callback` URI that ends in a `?` of its query, at any host. */
  function GluingUri(host: Text): Text {
    CallbackUri(host) + ['?'] + PIECE
  }

  function CallbackUri(host: Text): Text {
    Redirected.HTTP_ORIGIN + host + Callback.CALLBACK_PATH
  }

  predicate HostName(host: Text) {
    host != [] && '/' !in host && '?' !in host && forall b | b in host :: Redirected.Verbatim(b)
  }

  lemma PieceParses()
    ensures Form.Parse(PIECE) == [(PIECE, [])]
    ensures Redirected.NoLoginParams([(PIECE, [])])
  {
    Form.ParseOnePiece(PIECE);
    Form.DecodePlain(PIECE);
    assert |PIECE| == 2 && |Names.CODE| == 4 && |Names.STATE| == 5 && |Names.ERROR| == 5;
    Form.OccurrencesOfOne((PIECE, []), Names.CODE);
    Form.OccurrencesOfOne((PIECE, []), Names.STATE);
    Form.OccurrencesOfOne((PIECE, []), Names.ERROR);
  }

  lemma GluingQuery(host: Text)
    requires HostName(host)
    ensures Authorize.QueryOf(GluingUri(host)) == PIECE && Authorize.EndsInsideQuery(GluingUri(host))
  {
    var head := CallbackUri(host);
    assert '?' !in head;
    SplitOnceAppend(head, '?', PIECE);
    IndexOfAppend(head, '?', PIECE);
  }

  lemma {:induction false} AuthorityOfHost(host: Text, path: Text)
    requires path != [] && path[0] == '/' && '/' !in host && '?' !in host
    ensures Redirected.AuthorityEnd(host + path) == |host|
  {
    if host == [] {
      assert host + path == path;
    } else {
      assert (host + path)[1..] == host[1..] + path;
      assert host == [host[0]] + host[1..];
      AuthorityOfHost(host[1..], path);
    }
  }

  lemma TargetOfHost(host: Text, path: Text)
    requires HostName(host) && path != [] && path[0] == '/'
    ensures var url := Redirected.HTTP_ORIGIN + host + path;
            Redirected.OriginOf(url).Some? && Redirected.TargetOf(url) == path
  {
    var origin := Redirected.HTTP_ORIGIN;
    var url := origin + host + path;
    assert url[..|origin|] == origin && url[|origin|..] == host + path;
    AuthorityOfHost(host, path);
    assert url[|origin + host|..] == path;
  }

  lemma SlashName(name: Text)
    requires '/' !in name && '%' !in name && '+' !in name && name != "." && name != ".."
    ensures forall segment | segment in Split(['/'] + name, '/') :: !Redirected.DotSegment(segment)
  {
    assert ['/'] + name == [] + ['/'] + name;
    SplitStep([], '/', name);
    assert Split(['/'] + name, '/') == [[], name];
    Form.DecodePlain(name);
    Form.DecodePlain([]);
  }

  lemma UriIsSent(host: Text, name: Text, query: Text)
    requires HostName(host) && |name| > 2 && (forall b | b in name :: IsLower(b))
    requires forall b | b in query :: Redirected.Verbatim(b)
    ensures var uri := Redirected.HTTP_ORIGIN + host + (['/'] + name + ['?'] + query);
            Redirected.SentAsWritten(uri) && Redirected.PathOf(uri) == ['/'] + name
  {
    TargetOfHost(host, ['/'] + name + ['?'] + query);
    SplitOnceAppend(['/'] + name, '?', query);
    SlashName(name);
    UriBytes(host, name, query);
  }

  lemma UriBytes(host: Text, name: Text, query: Text)
    requires HostName(host) && (forall b | b in name :: IsLower(b))
    requires forall b | b in query :: Redirected.Verbatim(b)
    ensures forall b | b in Redirected.HTTP_ORIGIN + host + (['/'] + name + ['?'] + query) :: Redirected.Verbatim(b)
  {
  }

  lemma GluingUriIsSent(host: Text, name: Text)
    requires HostName(host) && Callback.CALLBACK_PATH == ['/'] + name
    ensures Redirected.SentAsWritten(GluingUri(host)) && Redirected.PathOf(GluingUri(host)) == Callback.CALLBACK_PATH
  {
    assert GluingUri(host) == Redirected.HTTP_ORIGIN + host + (['/'] + name + ['?'] + PIECE);
    assert forall i | 1 <= i < |Callback.CALLBACK_PATH| :: IsLower(Callback.CALLBACK_PATH[i]);
    assert forall i | 0 <= i < |name| :: name[i] == Callback.CALLBACK_PATH[i + 1];
    UriIsSent(host, name, PIECE);
  }

  /** It has no parameter of its own, and yet the code cannot come back to it. */
  lemma UriThatLosesCodes(host: Text)
    requires HostName(host)
    ensures Redirected.SentAsWritten(GluingUri(host)) && Redirected.NoOwnParams(GluingUri(host))
    ensures Redirected.PathOf(GluingUri(host)) == Callback.CALLBACK_PATH && Authorize.EndsInsideQuery(GluingUri(host))
  {
    GluingQuery(host);
    PieceParses();
    GluingUriIsSent(host, Callback.CALLBACK_PATH[1..]);
  }

  // ---- a configuration ----

  const ONE_SECOND: Duration := NANOS_PER_SEC

  /** An empty id passes validation, and so does an empty secret: with any usable URIs every
      client is valid. */
  lemma AnyCredentialsAreValid(clientId: Text, secret: Text, uris: seq<Text>)
    requires forall uri | uri in uris :: Config.GoodRedirectUri(uri)
    ensures var client := Config.RegisteredClient(clientId, secret, uris);
            Config.ValidConfig(Config.MockConfig([client], ONE_SECOND, ONE_SECOND, Config.Approve))
  {
  }

  // ---- a directory ----

  /** Before anything was ever saved. */
  const NOTHING: TokenFile.Disk := TokenFile.Disk(TokenFile.Missing, map[], 0, None, None, {None}, {None})

  /** The first save of all succeeds, and a crash can still take it back. */
  lemma FirstSaveCanVanish(tokens: Tokens.Tokens)
    ensures TokenFile.Good(NOTHING, {None})
    ensures var (d, ok) := TokenFile.SaveUpTo(NOTHING, tokens, seq(7, i => false), 7);
            ok && exists after :: TokenFile.CrashOf(d, after) && TokenFile.Read(after) == Ok(None)
  {
    var faults := seq(7, i => false);
    TokenFile.SavedIsDurable(NOTHING, tokens, faults, {None});
    var d := TokenFile.SaveUpTo(NOTHING, tokens, faults, 7).0;
    TokenFile.SavedReadsBack(NOTHING, tokens, faults, {None});
    TokenFile.PrefixAdvances(NOTHING, 0, 7, tokens, faults, {None});
    var after := TokenFile.LostDirectory(d);
    assert TokenFile.CrashOf(d, after) && TokenFile.Read(after) == Ok(None);
  }

  // ---- a lost answer ----

  /** A client is logged in, nobody refreshes, and the file is good. */
  ghost predicate Ready(sys: Sys) {
    && StoreInvariant.Valid(sys.server.store) && RefreshProtocol.Inv(sys)
    && sys.lock.None? && sys.disk.Some? && sys.disk.value.refreshToken !in sys.lost
  }

  /** Somebody's token is rejected: a new caller is about to send the refresh request. */
  lemma RefreshUnderWay(sys: Sys) returns (end: Sys)
    requires Ready(sys)
    ensures RefreshProtocol.Leads(sys, end)
    ensures var i, stored := |sys.callers|, sys.disk.value;
            var goal := Rejected(stored.accessToken);
            var caller := Caller(RefreshAfterUnauthorized(stored.accessToken), Sending(goal, stored), 0, 0);
            end == sys.(lock := Some(i), callers := sys.callers + [caller])
  {
    var stored, i := sys.disk.value, |sys.callers|;
    RefreshProtocol.LeadsNowhere(sys);
    var spawned := Then(sys, sys, Spawn(RefreshAfterUnauthorized(stored.accessToken)));
    var locked := Then(sys, spawned, Acquire(i));
    end := Then(sys, locked, Check(i));
  }

  /** Then one lost answer is enough: the file holds a refresh token that is gone. */
  lemma AnyAnswerCanBeLost(sys: Sys, access: Credential, refresh: Credential) returns (end: Sys)
    requires Ready(sys) && Drawn(sys.server, RefreshRequest(sys, sys.disk.value, access, refresh))
    ensures RefreshProtocol.Leads(sys, end)
    ensures end.lock.None? && end.disk == sys.disk && end.disk.value.refreshToken in end.lost
  {
    var sending := RefreshUnderWay(sys);
    RefreshProtocol.ExchangeStep(sys.server, sys.me, sys.disk.value.refreshToken, access, refresh);
    end := Then(sys, sending, Exchange(|sys.callers|, access, refresh, AnswerLost));
  }

  /** A code that the client can trade now, and new credentials for two grants. */
  predicate CanTrade(me: Text, w: Server, request: CodeRedemption, drawn: seq<Credential>) {
    && request.clientId == me && request.code in w.store.codes && !w.store.codes[request.code].redeemed
    && RedeemableBy(w.store.authorizationCodeLifetime, w.store.codes[request.code], request, w.now)
    && |drawn| == 4 && Distinct(drawn) && forall c | c in drawn :: c !in Credentials(w.store)
  }

  lemma LoginTraded(start: Sys, sys: Sys, request: CodeRedemption, drawn: seq<Credential>) returns (end: Sys)
    requires RefreshProtocol.Leads(start, sys) && CanTrade(sys.me, sys.server, request, drawn)
    ensures RefreshProtocol.Leads(start, end)
    ensures var op := RedeemOp(request, drawn[0], drawn[1]);
            var answer := Respond(sys, drawn[0], drawn[1]);
            && Drawn(sys.server, op) && Step(sys.server, op).1.Grant?
            && end == sys.(server := Step(sys.server, op).0,
                           callers := sys.callers + [Caller(CompleteLogin(request), Traded(answer), 0, 0)])
  {
    var spawned := Then(start, sys, Spawn(CompleteLogin(request)));
    assert drawn[0] !in Credentials(sys.server.store) && drawn[1] !in Credentials(sys.server.store);
    end := Then(start, spawned, Trade(|sys.callers|, drawn[0], drawn[1], Arrived));
  }

  /** And a login may overlap a refresh. The file then stays usable, but the login is not what is
      saved last: it reports success, and the file ends up with the old session's tokens. */
  lemma LoginCanBeOverwritten(sys: Sys, request: CodeRedemption, drawn: seq<Credential>) returns (end: Sys)
    requires Ready(sys) && CanTrade(sys.me, sys.server, request, drawn)
    ensures RefreshProtocol.Leads(sys, end) && |end.callers| == |sys.callers| + 2
    ensures end.callers[|sys.callers| + 1].pc == Returned(LoggedIn)
    ensures end.disk.Some? && end.disk.value.accessToken == drawn[2] != drawn[0]
  {
    var i, stored := |sys.callers|, sys.disk.value;
    var sending := RefreshUnderWay(sys);
    var traded := LoginTraded(sys, sending, request, drawn);
    StillGranted(sys, request, drawn);
    var received := Then(sys, traded, Exchange(i, drawn[2], drawn[3], Arrived));
    var saved := Then(sys, received, SaveLogin(i + 1, SaveResult.Done));
    end := Then(sys, saved, Save(i, SaveResult.Done));
  }

  lemma StillGranted(sys: Sys, request: CodeRedemption, drawn: seq<Credential>)
    requires Ready(sys) && CanTrade(sys.me, sys.server, request, drawn)
    requires Drawn(sys.server, RedeemOp(request, drawn[0], drawn[1]))
    ensures var w := Step(sys.server, RedeemOp(request, drawn[0], drawn[1])).0;
            var op := RefreshOp(sys.me, sys.disk.value.refreshToken, drawn[2], drawn[3]);
            Drawn(w, op) && Step(w, op).1.Grant?
  {
    var op, t := RedeemOp(request, drawn[0], drawn[1]), sys.disk.value.refreshToken;
    StillNew(sys.server, request, drawn);
    RefreshProtocol.StaysUsable(sys.server, sys.me, t, op);
    StoreInvariant.StepValid(sys.server, op);
    RefreshProtocol.ExchangeStep(Step(sys.server, op).0, sys.me, t, drawn[2], drawn[3]);
  }

  /** One action after a run. */
  lemma Then(start: Sys, before: Sys, action: Action) returns (end: Sys)
    requires RefreshProtocol.Leads(start, before) && Enabled(before, action)
    ensures RefreshProtocol.Leads(start, end) && end == Next(before, action)
  {
    RefreshProtocol.LeadsFurther(start, before, action);
    end := Next(before, action);
  }

  /** So a loss is reachable from the very start, whenever the client has a code to log in with. */
  lemma LossIsReachable(me: Text, epoch: nat, server: Server, request: CodeRedemption, drawn: seq<Credential>)
    returns (actions: seq<Action>, end: Sys)
    requires StoreInvariant.Valid(server.store) && CanTrade(me, server, request, drawn)
    ensures Reachable(Init(me, epoch, server), actions, end)
    ensures end.lock.None? && end.disk.Some?
    ensures RefreshProtocol.Loses(Init(me, epoch, server), actions, end.disk.value.refreshToken)
  {
    var start := Init(me, epoch, server);
    RefreshProtocol.LeadsNowhere(start);
    var traded := LoginTraded(start, start, request, drawn);
    var login := Then(start, traded, SaveLogin(0, SaveResult.Done));
    var before :| Reachable(start, before, login);
    RefreshProtocol.FromInit(me, epoch, server, before, login);
    StillNew(server, request, drawn);
    end := AnyAnswerCanBeLost(login, drawn[2], drawn[3]);
    RefreshProtocol.LeadsThrough(start, login, end);
    actions :| Reachable(start, actions, end);
    RefreshProtocol.LostExactly(start, actions, end, end.disk.value.refreshToken);
  }

  lemma StillNew(server: Server, request: CodeRedemption, drawn: seq<Credential>)
    requires |drawn| == 4 && Distinct(drawn) && forall c | c in drawn :: c !in Credentials(server.store)
    ensures var w := Step(server, RedeemOp(request, drawn[0], drawn[1])).0;
            forall op: Op | op.RefreshOp? && op.freshAccess == drawn[2] && op.freshRefresh == drawn[3] :: Drawn(w, op)
  {
    var w := Step(server, RedeemOp(request, drawn[0], drawn[1])).0;
    assert drawn[2] !in Credentials(server.store) && drawn[3] !in Credentials(server.store);
    assert Credentials(w.store) <= Credentials(server.store) + {drawn[0], drawn[1]};
  }
}
