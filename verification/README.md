# A verified model of the mock authorization server and its client

The repository holds both ends of a small OAuth 2.1 system: an authorization server with
single-use, rotating credentials (`rsc-mock`) and a client that must never burn its single-use
refresh token (`rsc`). This project models the two in Dafny and proves what they promise, each
alone and together. `dafny verify dfyconfig.toml` checks everything.

## How it is laid out

| file | models |
|---|---|
| `StoreModel.dfy`, `Store.dfy` | the store as a value with one function a method, and the class that changes its maps in place, proved against it |
| `StoreInvariant.dfy`, `Runs.dfy` | what every reachable store satisfies; winners, revocation and uniqueness over whole runs |
| `Eager.dfy`, `Independence.dfy`, `Isolation.dfy` | the eager reference that the lazy store refines; the simulation behind the independence of sessions, and what it says of responses |
| `Config.dfy`, `ClientAuth.dfy`, `Authorize.dfy`, `TokenEndpoint.dfy`, `Refusals.dfy`, `MockServer.dfy`, `Requests.dfy` | configuration, the two endpoints, which error each request gets, the server object, whole runs of requests with their responses |
| `RefreshMachine.dfy`, `RefreshProtocol.dfy`, `Callers.dfy`, `Freshness.dfy`, `Overlap.dfy`, `Manager.dfy`, `Tokens.dfy` | refreshes and logins of many callers as one machine; its invariant and promises; what each caller gets and why; the margin in the protocol; when a login's session stays on disk; the manager and API client objects as runs of the machine; the expiry margin |
| `TokenFile.dfy` | the crash-safe save on a file system with volatile and durable parts |
| `ClientRequests.dfy`, `Redirected.dfy`, `Callback.dfy`, `Login.dfy` | the login round trip |
| `Bytes.dfy`, `Utf8.dfy`, `Base64.dfy`, `Form.dfy`, `Pkce.dfy` | byte strings and the codecs, written out so that the round trips are proved |
| `Queue.dfy`, `SessionModel.dfy`, `Skips.dfy`, `Session.dfy`, `Pause.dfy` | playback, the reference for its keys, and the pause flag |
| `Witnesses.dfy` | inputs and runs for which the conditional promises fail |
| `Time.dfy`, `Wrappers.dfy`, `Errors.dfy`, `Names.dfy` | durations and the clock, result shapes, error answers, parameter names |

Texts are byte strings. Durations are nanoseconds bounded as `std::time::Duration` is, with
saturating addition. SHA-256 is any function from texts to 32 bytes, and no claim is made about
collisions: secrets are compared by digest, as in the code. Random credentials are draws passed in;
the store methods take the sequence of candidates and the state machines take the first new ones.
The server's mutex makes each request one step, so concurrency on the server is the order of the
steps. On the client every point between two awaits is a separate action.

## What the proofs show about the code

* **A registered URI that ends in a `?` of its own query loses the code.** `Redirect::to` appends
  without a separator whenever the base ends in `?`, and glues the code to the last registered
  parameter. `Authorize.RedirectQueryLaw` and `Redirected.CallbackBringsCode` give the exact
  condition, `Witnesses.UriThatLosesCodes` a URI at any host.
* **Validation lets through clients that can never log in.** An empty `client_id` or
  `client_secret` passes `MockConfig::validate`, but empty parameters count as missing
  (`Login.EmptyIdNeverLogsIn`, `Login.EmptySecretNeverLogsIn`, `Witnesses.AnyCredentialsAreValid`).
  `Login.LoginExactly` says exactly when a login succeeds. An id with a colon, or an empty one, can
  never be sent by Basic (`ClientAuth.BasicExactly`).
* **`is_valid_challenge` accepts challenges that no verifier answers**, those whose last character
  carries bits beyond the 32nd byte (`Pkce.ValidChallengeWithoutVerifier`, `Pkce.VerifyExact`).
* **A lost answer does lock the client out.** The comment at `rsc-mock/src/oauth/store.rs:176-178`
  says that a client that lost a response is not locked out. The session stays valid on the server,
  but the only unspent refresh token went with the response: every later refresh of this client is
  refused until it logs in again (`RefreshProtocol.RefreshNeverRefused`, and
  `Witnesses.AnyAnswerCanBeLost` from any state with a client logged in).
* **`save` does not sync the parent of a directory it creates**, so the first save in a new
  directory can vanish with it (`TokenFile.SavedIsDurable` gives the exact condition,
  `Witnesses.FirstSaveCanVanish` the case).
* **A login may overlap a refresh.** `complete_login` takes no lock, and the protocol keeps its
  promises all the same, as long as the two saves do not overlap. But a login can report success
  and have its tokens overwritten by those of the old session (`Witnesses.LoginCanBeOverwritten`).
  `Overlap.LoginStaysExactly` says when it cannot: at the moment of its save nobody under the lock
  has an answer of another session or a good token of one to send.
* **The listener reads 16 KiB of a request**, and understands a line that is up to three bytes
  longer, because only the protocol's name is looked at (`Callback.LongLineIsRead`).
* **The 60 s margin is exact up to the client's whole-second clock** (`Tokens.MarginIsExact`). In the
  protocol it means that a stored token is accepted as long as its time has not come, if every
  answer was saved within the margin (`Freshness.UnexpiredIsAccepted`). A token that a call returns
  right after its own refresh is not checked again: where tokens live no longer than the margin, it
  counts as expired from the start.

## Model

| member | source | states |
|---|---|---|
| Independence.SessionsIndependent | rsc-mock/src/oauth/store.rs:105-231 | From boot, in any run: erasing everything done with one authorization (its code, refreshes, replays, inspections) leaves every other answer and the clock as they were, the shorter run is still valid, and at its end any request outside the session (of any other code, refresh token or access token) gets the same answer |
| Independence.RunSimulated | rsc-mock/src/oauth/store.rs:105-231 | The simulation behind it, from any two stores that agree up to a one-to-one renaming of family numbers |
| Independence.FollowStep | rsc-mock/src/oauth/store.rs:105-231 | Each request, on the erased session or not, keeps the two stores in agreement under the renaming it extends |
| Isolation.ResponsesIndependent | rsc-mock/src/oauth/token.rs:63-158 | The same for the whole server: erasing the requests of one authorization from any run from boot leaves every other response unchanged, and whatever is sent afterwards outside the session is answered alike |
| Isolation.OtherRequest | rsc-mock/src/oauth/token.rs:63-158 | A request outside the session gets the same response from two servers that agree up to the renaming, and they go on agreeing |
| Isolation.SameResponse | rsc-mock/src/oauth/token.rs:63-158 | The request, the user's decision and the answer of its step determine the response: nothing else of the store shows |
| Eager.LazyRefinesEager | rsc-mock/src/oauth/store.rs:134-231 | The store that revokes and expires lazily gives, in every run, exactly the answers of a reference that has no flags and no families: it drops expired codes and tokens as the clock moves and removes every descendant of a code at the moment of its replay |
| Eager.StepAgrees | rsc-mock/src/oauth/store.rs:105-231 | One request keeps the lazy and the eager server in agreement and gets the same answer from both |
| StoreInvariant.StepValid | rsc-mock/src/oauth/store.rs:105-270 | Every request keeps the invariant: disjoint key sets, one family a code, tokens only in redeemed families of the same client, conservation |
| StoreInvariant.RunValid | rsc-mock/src/oauth/store.rs:105-270 | Hence every reachable store: a redeemed family has exactly one unspent refresh token, an unredeemed one none, access and refresh tokens of a family are equally many, redeemed codes and unspent refresh tokens are equally many |
| StoreInvariant.UnredeemedHasNone | rsc-mock/src/oauth/store.rs:156-171 | A family whose code is not redeemed has no access token, no refresh token and is not revoked |
| Requests.RequestsAreSteps | rsc-mock/src/oauth/token.rs:63-158 | A run of requests is, request by request, a run of store steps of the same length (a request that asks for none is an idle step), and leaves the server where that run does |
| Requests.ResponseTells | rsc-mock/src/oauth/token.rs:63-158 | The i-th response tells what the i-th step answers: tokens exactly for a grant, with its credentials, `invalid_grant` exactly for a refusal, another error for no step, a code redirect for a code issued |
| Requests.CodeWinnerOnTheWire | rsc-mock/src/oauth/token.rs:98-123 | A token request for an unredeemed code is answered with tokens if and only if it is the first eligible one of the run |
| Requests.RefreshWinnerOnTheWire | rsc-mock/src/oauth/token.rs:125-144 | A token request with an unspent refresh token is answered with tokens if and only if it is its owner's first use of it and the session is not revoked by then |
| Requests.WireRefinesEager | rsc-mock/src/oauth/token.rs:63-158 | From boot, every response of every run tells what the eager reference answers |
| Requests.RequestIsStep | rsc-mock/src/oauth/token.rs:63-158 | One request does exactly what its step does, and its response tells of that step |
| Requests.RequestsConserve | rsc-mock/src/oauth/token.rs:63-158 | After any run of requests from boot, redeemed codes and unspent refresh tokens are equally many and the whole invariant holds |
| Runs.CodeWinner | rsc-mock/src/oauth/store.rs:134-172 | In any order of requests, a redemption of an unredeemed code is granted if and only if it is by the owner, in time, with the matching URI and verifier, and no earlier request was |
| Runs.CodeWinnerInRun | rsc-mock/src/oauth/store.rs:105-172 | The same for a code issued in the middle of a run: the first eligible redemption since its issue wins and no other |
| Runs.UnknownCodeIsRefused | rsc-mock/src/oauth/store.rs:139 | A code that was not issued before is never redeemed |
| Runs.RefreshWinner | rsc-mock/src/oauth/store.rs:180-201 | A refresh with an unspent token is granted if and only if it is its owner's first use and the family is not revoked by then, whatever others try in between |
| Runs.RefreshWinnerInRun | rsc-mock/src/oauth/store.rs:156-201 | The same for a refresh token handed out in the middle of a run, which belongs to the client that got the grant |
| Runs.RevokedForever | rsc-mock/src/oauth/store.rs:151-154 | From revocation on, in every continuation, none of the family's access tokens is valid, none of its refresh tokens works, and no token joins it |
| Runs.RevokedExactly | rsc-mock/src/oauth/store.rs:151-154 | A family of an unredeemed code is revoked at the end of a run if and only if the code was redeemed in it and later presented again by its owner |
| Runs.RevokedAfterRedemption | rsc-mock/src/oauth/store.rs:151-154 | Once the code is redeemed, the family gets revoked exactly when the owner presents the code again |
| Runs.AppTokenLivesUntilExpiry | rsc-mock/src/oauth/store.rs:204-231 | An app token is valid in every continuation exactly until its expiry: nothing revokes it |
| Runs.CredentialsUnique | rsc-mock/src/oauth/store.rs:274-284 | All credentials handed out in a run are pairwise distinct and new, and the store holds the old ones and these, no others |
| Runs.CredentialsFromBoot | rsc-mock/src/oauth/store.rs:274-284 | From boot: every code, access and refresh token ever issued is distinct and sits in exactly one map |
| Runs.RunPersists | rsc-mock/src/oauth/store.rs:89-270 | No entry is ever dropped or altered, except that codes become redeemed, tokens spent and families revoked, one way only |
| Runs.UnredeemedStep | rsc-mock/src/oauth/store.rs:134-172 | One request against an unredeemed code: an eligible one is granted and redeems it, any other presentation is refused and leaves it as it was |
| Runs.UnspentStep | rsc-mock/src/oauth/store.rs:180-201 | One request against an unspent refresh token: the owner's use spends it, any other is refused and leaves it as it was |
| Runs.RedeemedExactly | rsc-mock/src/oauth/store.rs:130-172 | At the end of a run a code is redeemed if and only if some request of it was eligible, and is otherwise as it was: wrong clients, URIs and verifiers do not burn it |
| Store.DistinctDrawsSuffice | rsc-mock/src/oauth/store.rs:274-284 | Among more distinct draws than there are issued credentials one is new, at a position no later than their number |
| Store.Store.constructor | rsc-mock/src/oauth/store.rs:89-102 | A new store is empty and satisfies the invariant |
| Store.Store.FreshCredential | rsc-mock/src/oauth/store.rs:274-284 | The loop ends with the first draw never issued, after at most one draw more than there are issued credentials when draws are distinct |
| Store.Store.IssueCode | rsc-mock/src/oauth/store.rs:105-128 | The new state is the old one with one unredeemed code under a new family; the invariant is kept |
| Store.Store.InsertAccessToken | rsc-mock/src/oauth/store.rs:250-269 | Adds exactly one access token, with the full lifetime from now, saturating |
| Store.Store.IssueUserTokens | rsc-mock/src/oauth/store.rs:233-248 | Adds one access token and one refresh token, each new, the second also different from the first |
| Store.Store.RedeemCode | rsc-mock/src/oauth/store.rs:134-172 | State and answer after each of the refusals in order, the replay and the success; the invariant is kept |
| Store.Store.Refresh | rsc-mock/src/oauth/store.rs:180-201 | State and answer after a refusal and after a success; the invariant is kept |
| Store.Store.IssueAppToken | rsc-mock/src/oauth/store.rs:204-210 | Adds one app access token without family or refresh token; the invariant is kept |
| Store.Store.AccessTokenInfo | rsc-mock/src/oauth/store.rs:213-231 | A token is reported if and only if it is known, not revoked and not expired, and then with its kind, its client and a non-zero time left, which is what remains until its expiry |
| RefreshProtocol.DiskTokenUsable | rsc/src/auth/manager.rs:63-121 | After any interleaving of any number of callers, logins included and overlapping refreshes, with the clock and any requests of others, also as this client: when nobody holds the lock, the refresh token on disk is known to the server, owned, unspent and unrevoked if and only if no action of the run lost it |
| RefreshProtocol.RefreshNeverRefused | rsc/src/auth/manager.rs:99-121 | A caller's refresh request is granted if and only if no earlier action of the run lost the token it sends; only otherwise is the caller told that the session expired |
| RefreshProtocol.LosslessIsNeverRefused | rsc/src/auth/manager.rs:99-121 | Where every answer arrives and is saved no refresh request is ever refused |
| RefreshProtocol.LostExactly | rsc/src/auth/manager.rs:111-119 | A token is lost exactly by a granted exchange whose answer is lost on its way or not saved, by another process that uses it as this client, or by a replay of the code it descends from |
| RefreshProtocol.OneRefreshPerToken | rsc/src/auth/manager.rs:73-76 | Among the granted refreshes of a run no access token is replaced twice, so all callers rejected with the same token cause at most one between them |
| RefreshProtocol.LogExactly | rsc/src/auth/manager.rs:111-119 | The machine's log is exactly the granted exchanges among the actions of the run, in order |
| RefreshProtocol.SavedExactly | rsc/src/auth/manager.rs:118-120 | A token counts as saved exactly when an action of the run wrote it to the file |
| RefreshProtocol.TokensAreSavedFirst | rsc/src/api/mod.rs:54-79 | Every token a caller returns or uses was written to the file by an action of the run; a call sends at most two API requests and two refreshes, and only `get_json` sends API requests |
| RefreshProtocol.NextKeeps | rsc/src/auth/manager.rs:63-129 | Every action of every caller, of logins and of others keeps the protocol invariant and the store invariant |
| RefreshProtocol.ReachableOk | rsc/src/auth/manager.rs:63-129 | Hence both hold after every interleaving |
| RefreshProtocol.StaysUsable | rsc-mock/src/oauth/store.rs:134-201 | A usable refresh token stays usable through any request but its owner's use of it or replay of the code it descends from |
| RefreshProtocol.ExchangeStep | rsc-mock/src/oauth/store.rs:180-201 | A refresh is granted exactly for a usable token; then the old one is spent and the new one usable; otherwise nothing changes |
| RefreshProtocol.ServerStep | rsc-mock/src/oauth/store.rs:105-231 | Any request of anybody, replays of this client's codes and uses of its tokens included, keeps the invariant: a token is as good as it was unless the request takes it, and then it counts as lost |
| RefreshProtocol.FilingKeeps | rsc/src/auth/manager.rs:118-120 | Saving an answer, of a refresh or of a login, while others are under way keeps the invariant |
| RefreshProtocol.GrantedKeeps | rsc/src/auth/manager.rs:110-117 | So does a granted exchange, whether or not its answer arrives |
| Overlap.LoginStaysExactly | rsc/src/auth/manager.rs:80-121 | When a login is saved, in any reachable state, every continuation without another login keeps its session on disk if and only if the lock holder neither has an answer of another session nor is about to send another session's token that is not lost |
| Overlap.StaysExactly | rsc/src/auth/manager.rs:99-121 | The same from any state that satisfies the invariants and whose file is in the session |
| Overlap.NextStaysIn | rsc/src/auth/manager.rs:63-129 | Every action but another login's save keeps the file in the session and the condition true |
| Overlap.SendingReceives | rsc/src/auth/manager.rs:110-119 | A holder about to send another session's good token can receive an answer of that session: new credentials can always be drawn |
| Callers.LoadDecides | rsc/src/auth/manager.rs:63-69 | The first look waits for the lock exactly when the stored expiry time has come; otherwise the stored token is the answer, and without a file the client is not logged in |
| Callers.CheckDecides | rsc/src/auth/manager.rs:99-109 | Under the lock a refresh is sent exactly when the stored time has come, or, after a rejection, exactly when the stored access token still is the rejected one; otherwise the stored token is handed out and the lock let go |
| Callers.SilenceIsNoRefusal | rsc/src/auth/manager.rs:111-117 | A refresh request without an answer ends as a token error, never as an expired session |
| Callers.ValidTokenIsValid | rsc/src/auth/manager.rs:63-69 | In every interleaving, a token that `get_valid_token` returns without a refresh of its own had not expired when this caller looked at the file, and one it returns after a refresh is the one it saved |
| Callers.RejectedIsReplaced | rsc/src/auth/manager.rs:73-76 | In every interleaving, `refresh_after_unauthorized` never returns the rejected token, and `get_json` never sends its second request with the token of the first |
| Callers.OutcomeIsMeant | rsc/src/api/mod.rs:54-79 | In every interleaving, `get_json` reports JSON if and only if its last response is a 2xx whose body arrived and decodes, a decoding error for a 2xx whose body does not decode, a status error for a whole response of exactly that status outside 2xx and not 401, a transport error for none or a broken one, and an expired session for a second 401 |
| Callers.NextExplained | rsc/src/auth/manager.rs:63-129 | Every action keeps what each caller holds explained by what it did |
| Freshness.UnexpiredIsAccepted | rsc/src/auth/tokens.rs:29-39 | In every run whose answers are saved within the margin: as long as the time in the file has not come, the server accepts its access token if and only if it has not revoked the session |
| Freshness.SavedIsAccepted | rsc/src/auth/tokens.rs:29-39 | A token saved in time, with a lifetime above the margin, is accepted if and only if its session is not revoked |
| Freshness.NextTimed | rsc/src/auth/tokens.rs:29-39 | Every action that saves nothing late keeps the time in the file no later than the server's |
| Manager.AuthManager.GetValidToken | rsc/src/auth/manager.rs:63-69 | A run of the protocol with exactly one refresh request if the stored time has come and none otherwise; without one the stored token is returned and nothing changes, with one the result and the file are what the server's answer calls for |
| Manager.AuthManager.RefreshAfterUnauthorized | rsc/src/auth/manager.rs:73-76 | The same, with a refresh exactly if the stored access token is the rejected one |
| Manager.AuthManager.RefreshIf | rsc/src/auth/manager.rs:99-121 | The critical section is a run of the protocol through every failure of network and disk; it sends exactly one request if the stored tokens call for it and none otherwise |
| Manager.AuthManager.RefreshStored | rsc/src/auth/manager.rs:111-119 | A refusal is an expired session and silence a token error, both with the file as it was; an answer is returned only if the file holds it |
| Manager.AuthManager.SaveAnswer | rsc/src/auth/manager.rs:118-120 | From the answer on: either it is in the file, counted from its arrival, and returned, or a storage error and the file old or new |
| Manager.AuthManager.CompleteLogin | rsc/src/auth/manager.rs:80-92 | A run of the protocol for any code, a replayed one included, also while another caller holds the lock: a refused or unanswered code is the token error and leaves the file alone; a granted one is saved exactly as answered, counted from its arrival, on success |
| Manager.AuthManager.SaveLoginAnswer | rsc/src/auth/manager.rs:90-91 | The file ends up with the answer's tokens or as it was, and on success with the tokens |
| Manager.AuthManager.Load | rsc/src/auth/manager.rs:123-129 | The tokens of the file, not logged in without one, a storage error when it does not parse |
| Manager.AuthManager.Save | rsc/src/auth/store.rs:37-64 | The file ends up with the new tokens or as it was, and on success with the new ones |
| Manager.ApiClient.GetJson | rsc/src/api/mod.rs:54-79 | A run of the protocol with one retry: an invalid path sends nothing, a second request is sent only after a 401, at most two in all, a second 401 means an expired session, and any other last response is JSON, a decoding, status or transport error exactly by its status and body |
| Manager.ApiClient.Retry | rsc/src/api/mod.rs:63-78 | The refresh and the second request after a 401, with the outcome that the second response means |
| Tokens.MarginIsSafe | rsc/src/auth/tokens.rs:29-39 | With an answer delayed by at most 60 s, whenever the client does not take the token for expired the server has not let it expire |
| Tokens.MarginIsExact | rsc/src/auth/tokens.rs:29-39 | For lifetimes above the margin the client is safe for ever if and only if the whole second in which the answer arrives starts within 60 s of the issue |
| Tokens.BelievedTokenIsAccepted | rsc-mock/src/oauth/store.rs:213-231 | Client and server together, over any requests in between: a token the client believes in is accepted exactly unless its family was revoked |
| Tokens.BelievedValidMeaning | rsc/src/auth/tokens.rs:29-39 | What is believed is what `from_response` and `is_expired` say on the client's clock |
| TokenFile.CrashAtomic | rsc/src/auth/store.rs:37-64 | For every point at which `save` is cut short, every fault before it and every choice of unsynced effects that survive, the next `load` finds a value allowed before or exactly the new tokens |
| TokenFile.SavedIsDurable | rsc/src/auth/store.rs:37-64 | `save` succeeds unless a call fails, whatever a crash left behind; then `load` returns the new tokens, and does so after any crash if and only if the directory was durable before |
| TokenFile.FileAlwaysReadable | rsc/src/auth/store.rs:27-64 | Through any history of saves, failures and crashes `load` never fails and returns what the last completed save or an attempt since would have written |
| TokenFile.SaveIsAtomic | rsc/src/auth/store.rs:37-64 | To the running program a save changes the file to the new tokens or not at all, and leaves the next save nothing to trip over |
| TokenFile.CallAdvances | rsc/src/auth/store.rs:37-64 | Each of the seven calls succeeds unless made to fail, advances the save by one stage, and leaves only allowed values for a crash to find |
| TokenFile.UnsyncedRenameIsUnsafe | rsc/src/auth/store.rs:58-61 | Without the file sync, on any durable disk a crash after the whole save can leave a file that does not parse |
| TokenFile.TokenStore.Save | rsc/src/auth/store.rs:37-64 | The calls in order, stopping at the first that fails |
| TokenFile.TokenStore.Load | rsc/src/auth/store.rs:27-35 | No tokens without a file, the tokens of a complete one, an error for one that does not parse |
| Login.LoginExactly | rsc/src/auth/client.rs:69-97 | For all random bytes, every state, every valid configuration with a URI that user agents send as written and that has no parameters of the redirect, and any other requests in between: the login yields tokens if and only if id and secret are not empty, the path is `/callback`, the URI does not end in a `?` of its own query, the request line and the form fit, the trade is in time, and no request in between was eligible; then the tokens have their full lifetime |
| Login.TradeExactly | rsc-mock/src/oauth/client_auth.rs:42-82 | The trade alone: tokens if and only if the secret is not empty, the form fits, in time and undisturbed |
| Login.CodeComesHome | rsc/src/auth/callback.rs:35-70 | From the generated verifier and the authorize URL to the listener: the redirect brings exactly the code issued when the listener can read its line, the path is `/callback` and the registered URI does not end in a `?` of its own query; otherwise the result says which of them failed |
| Login.AuthorizeIssues | rsc-mock/src/oauth/authorize.rs:25-58 | Fetching the authorize URL of a registered client, for any state and any challenge of the right form, becomes one `issue_code` step and a redirect with code and state |
| Login.ExchangeRedeems | rsc/src/auth/client.rs:81-97 | The exchange form is exactly one `redeem_code` step on behalf of its client, reported as it was answered |
| Login.RefreshFormRefreshes | rsc/src/auth/client.rs:99-107 | The refresh form is exactly one `refresh` step on behalf of its client, reported as it was answered |
| Login.CodeStaysRedeemable | rsc-mock/src/oauth/store.rs:130-172 | After any other requests, stray presentations of the code included, the client's own presentation is granted if and only if it is in time and no request before was eligible, and the token then expires a full lifetime later |
| Login.EmptyIdNeverLogsIn | rsc-mock/src/oauth/authorize.rs:62-69 | A client registered with an empty id is answered `invalid_client` for ever |
| Witnesses.UriThatLosesCodes | rsc-mock/src/oauth/authorize.rs:143-149 | At every host there is a `/callback` URI, sent as written and without parameters of its own, to which the code cannot come back |
| Witnesses.AnyCredentialsAreValid | rsc-mock/src/config.rs:53-70 | A configuration with any client id and any secret, each possibly empty, and any usable URIs is valid |
| Witnesses.FirstSaveCanVanish | rsc/src/auth/store.rs:37-64 | The first save into a missing directory succeeds, and a crash can leave no file |
| Witnesses.AnyAnswerCanBeLost | rsc/src/auth/manager.rs:99-121 | From any state with a client logged in and nobody refreshing, one lost answer leaves a refresh token on disk that is gone |
| Witnesses.LoginCanBeOverwritten | rsc/src/auth/manager.rs:80-121 | From any such state and a code to trade, a login that overlaps a refresh can report success and have its tokens overwritten by the old session's |
| Witnesses.LossIsReachable | rsc/src/auth/manager.rs:63-121 | From the start of the client and any server state with a code of its own, a run reaches such a loss |
| Login.EmptySecretNeverLogsIn | rsc-mock/src/oauth/client_auth.rs:65-69 | A client registered with an empty secret can never trade a code, whatever the length of its form |
| Authorize.RedirectQueryLaw | rsc-mock/src/oauth/authorize.rs:135-158 | Decoding the query of the redirect gives the registered parameters, then the new one, then the state, if and only if the base does not end in a `?` of its own query |
| Authorize.ApprovedIssues | rsc-mock/src/oauth/authorize.rs:25-58 | A well-formed request that the user approves is one `issue_code` step for the client named, with the URI and challenge given, and redirects with the code |
| Authorize.OthersConsumeNothing | rsc-mock/src/oauth/authorize.rs:25-58 | Every other request leaves the server as it was, and any redirect goes to a URI registered for the client named and carries an error |
| Authorize.NeverInternal | rsc-mock/src/oauth/authorize.rs:151-152 | Under a valid configuration the location is always a legal header value: no request is answered 500 |
| Authorize.TrustedExact | rsc-mock/src/oauth/authorize.rs:62-88 | The client and URI are found exactly when both parameters are sent once and not empty, the id is registered and the URI is one of its own |
| Authorize.ValidateExact | rsc-mock/src/oauth/authorize.rs:92-123 | The challenge is accepted exactly when type, challenge and method are each sent once with the required values and state at most once |
| TokenEndpoint.TokenIsOneStep | rsc-mock/src/oauth/token.rs:63-158 | A request that passes method, type, size, repetition and authentication is exactly the store step it asks for, on behalf of the client that authenticated; any other is refused, not as an invalid grant, and changes nothing |
| TokenEndpoint.FailuresConsumeNothing | rsc-mock/src/oauth/token.rs:63-158 | An answer other than 200 leaves the whole server as it was, except the owner's replay of a redeemed code, which revokes that one family |
| TokenEndpoint.UnauthenticatedLearnsNothing | rsc-mock/src/oauth/token.rs:82-84 | When authentication fails the answer depends on neither store nor clock |
| Refusals.WrongSecretIsRefused | rsc-mock/src/oauth/token.rs:82-84 | Whatever the grant, the store and the time, a request whose secret has another digest than the named client's consumes nothing, and once it reaches authentication is answered `invalid_client` |
| Refusals.RefusedBeforeAuthentication | rsc-mock/src/oauth/token.rs:63-80 | Method, content type, size and repetition are checked in this order, each with its own error, and nothing is consumed |
| Refusals.RefusedOrReaches | rsc-mock/src/oauth/token.rs:63-80 | A request is refused in one of these ways exactly if it does not reach authentication |
| Refusals.RefusedAfterAuthentication | rsc-mock/src/oauth/token.rs:86-158 | After authentication: which error a missing parameter, a missing or unknown grant type, and an app grant without Basic get, and no other request gets it |
| Refusals.RepeatedIsRefused | rsc-mock/src/oauth/token.rs:29-38 | Each of the seven known parameters, sent twice, is refused as an invalid request and consumes nothing |
| Refusals.FormContentExact | rsc-mock/src/oauth/token.rs:178-196 | A content type is a form's exactly when it is the media type in any case, between white space, with any parameters after a semicolon, in visible ASCII |
| Refusals.UnknownClientIsRefused | rsc-mock/src/oauth/authorize.rs:62-69 | A repeated client id is an invalid request; a missing, empty or unknown one `invalid_client`; another method is not allowed; and the server is as it was |
| Refusals.UntrustedUriIsRefused | rsc-mock/src/oauth/authorize.rs:72-88 | A client that is named with no URI of its own is answered with an invalid request, not redirected |
| Refusals.ValidateErrors | rsc-mock/src/oauth/authorize.rs:92-123 | A request that asks for no code is `unsupported_response_type` exactly if it asks once for another type, and otherwise `invalid_request` |
| Refusals.TrustedIsToldWhy | rsc-mock/src/oauth/authorize.rs:36-51 | Once client and URI are trusted, every refusal is a redirect with the state: first what is wrong with the request, and only then that the user refused |
| TokenEndpoint.AppTokenNeedsBasic | rsc-mock/src/oauth/token.rs:146-158 | An answer without refresh token is given only for `client_credentials` and to a client with readable Basic credentials |
| ClientAuth.AuthenticateExact | rsc-mock/src/oauth/client_auth.rs:42-82 | Authentication succeeds exactly when one method presents a registered id and a secret with the SHA-256 digest of the registered one: Basic with no secret and no other id in the body, or the body with no header at all |
| ClientAuth.WrongSecretFails | rsc-mock/src/oauth/client_auth.rs:71-81 | A presented secret with another digest than that of every client of the id is refused, by either method; so is an unknown id |
| ClientAuth.OnlyTheSecretAuthenticates | rsc-mock/src/oauth/client_auth.rs:109-115 | Where no other text has the digest of the registered secret, success means that exactly this id and this secret were presented |
| ClientAuth.FailureExact | rsc-mock/src/oauth/client_auth.rs:51-81 | A failure is an invalid request exactly for usable Basic credentials with a secret in the body, and otherwise always the same answer |
| ClientAuth.BasicRoundTrip | rsc-mock/src/oauth/client_auth.rs:89-107 | Reading a Basic header undoes writing it, for any secret, any case of the scheme and any canonical amount of padding |
| ClientAuth.BasicExactly | rsc-mock/src/oauth/client_auth.rs:89-107 | Some headers read as an id and a secret if and only if neither is empty, both are UTF-8 and the id has no colon |
| ClientAuth.BasicHeaderExact | rsc-mock/src/oauth/client_auth.rs:89-107 | A header reads as an id and a secret if and only if they can be sent by Basic and it is the scheme in any case, a space, and the base64 of the pair with any part of its padding between spaces and tabs |
| ClientAuth.BasicReadsWhatIsWritten | rsc-mock/src/oauth/client_auth.rs:89-107 | Whatever is read was written that way |
| Utf8.Utf8Exact | rsc-mock/src/oauth/client_auth.rs:101 | A byte string passes the UTF-8 check if and only if it is the encoding of a sequence of Unicode scalar values (section 3 of RFC 3629) |
| Bytes.TrimExact | rsc-mock/src/oauth/client_auth.rs:100 | Trimming removes exactly the white space around a text |
| Bytes.IgnoreCaseExact | rsc-mock/src/oauth/client_auth.rs:97-99 | Two texts are equal ignoring case exactly when each pair of bytes is the same or the same letter in two cases |
| ClientAuth.HeaderIsTheAttempt | rsc-mock/src/oauth/client_auth.rs:47-51 | An unusable header fails the request whatever the body says |
| ClientAuth.FailuresLookTheSame | rsc-mock/src/oauth/client_auth.rs:73-81 | Whichever clients are registered, two failures of the same request get the same answer |
| ClientAuth.RegisteredClientAuthenticates | rsc-mock/src/oauth/client_auth.rs:42-82 | In a valid configuration a client that can be written as a Basic header authenticates as itself |
| MockServerObject.MockServer.constructor | rsc-mock/src/server.rs:56-69 | Starts at time zero with an empty store and the configured decision |
| MockServerObject.MockServer.HandleAuthorize | rsc-mock/src/oauth/authorize.rs:25-58 | The new state and the answer of `/authorize` under the lock |
| MockServerObject.MockServer.HandleToken | rsc-mock/src/oauth/token.rs:63-96 | The new state and the answer of `/oauth/token`, with the loop over the known parameters |
| MockServerObject.MockServer.AnyRepeated | rsc-mock/src/oauth/token.rs:76-80 | The loop finds a repeated known parameter if there is one |
| MockServerObject.MockServer.AuthorizationCode | rsc-mock/src/oauth/token.rs:98-123 | New state and answer of the code grant |
| MockServerObject.MockServer.RefreshToken | rsc-mock/src/oauth/token.rs:125-144 | New state and answer of the refresh grant |
| MockServerObject.MockServer.ClientCredentials | rsc-mock/src/oauth/token.rs:146-158 | New state and answer of the client credentials grant |
| MockServerObject.MockServer.AdvanceClock | rsc-mock/src/server.rs:137-139 | Moves time forward, saturating, and nothing else |
| MockServerObject.MockServer.SetUserDecision | rsc-mock/src/server.rs:142-144 | Changes the decision and nothing else |
| MockServerObject.MockServer.TokenInfo | rsc-mock/src/server.rs:148-153 | What the store says of the token at the current time |
| Time.Clock.Advance | rsc-mock/src/clock.rs:17-21 | Elapsed time grows by the step and stops at the largest duration |
| Config.Validate | rsc-mock/src/config.rs:53-70 | Succeeds exactly on a valid configuration, otherwise names the first thing wrong in the documented order |
| Config.ControlExact | rsc-mock/src/config.rs:93-96 | A UTF-8 text has a control character exactly when one of its scalar values is below 32 or from 127 to 159 |
| Config.IdNamesClient | rsc-mock/src/server.rs:78-83 | In a valid configuration looking up an id finds the one client that has it |
| Callback.OnlyCallbacksDecide | rsc/src/auth/callback.rs:35-52 | A line ends the wait if and only if it is a `GET` of exactly `/callback` |
| Callback.CallbackIsRead | rsc/src/auth/callback.rs:35-70 | Such a line gets the answer that its decoded parameters deserve |
| Callback.CallbackIsAnswered | rsc/src/auth/callback.rs:54-69 | The state is checked first, then an error, then the code: when exactly each of the four answers is given |
| Callback.MalformedExactly | rsc/src/auth/callback.rs:35-45 | A line is malformed exactly when it is not three parts with a path and the protocol's name |
| Callback.TargetIsRead | rsc/src/auth/callback.rs:35-52 | A `GET` of any target is not the callback unless its path is exactly `/callback`, and then is answered from its query |
| Callback.LongLineIsRead | rsc/src/auth/callback.rs:132-146 | A request line longer than what is read is understood as if whole while the name of the protocol is left of its version, and is malformed when more is cut |
| Callback.CodeNeedsState | rsc/src/auth/callback.rs:54-69 | A code is returned only from a callback whose first state is the expected one, without error, and it is that callback's first code, not empty |
| Callback.AcceptUntilCallback | rsc/src/auth/callback.rs:104-123 | The first connection that decides gives the result and is answered 200 for a code and 400 otherwise; every earlier request line is answered 404, silent connections get nothing |
| Callback.WaitForCode | rsc/src/auth/callback.rs:88-146 | The result is that of the first line that decides, as far as it is read, or a timeout exactly when none does |
| Redirected.CallbackBringsCode | rsc/src/auth/callback.rs:35-70 | For any URI sent as written, without parameters of the redirect, and any state: a line too long is malformed, a path other than `/callback` is not the callback, a URI that ends in a `?` of its own query loses the code, and every other brings exactly the code |
| Redirected.LocationIsRead | rsc-mock/src/oauth/authorize.rs:143-151 | Any redirect to a URI that is sent as written is answered from the whole query of its location, unless the line is too long or the registered path is not `/callback` |
| Redirected.LocationTarget | rsc-mock/src/oauth/authorize.rs:143-151 | What the redirect appends leaves origin and path alone: the request target has the registered path and the query of the location |
| Redirected.GluedHasNoNewName | rsc-mock/src/oauth/authorize.rs:143-149 | Text glued to a query that ends in `?` introduces no parameter of a plain name |
| ClientRequests.AuthorizeUrl | rsc/src/auth/client.rs:69-79 | The URL has no fragment, splits at its first `?` into the endpoint and a query, and parsing the query gives the six pairs as passed |
| ClientRequests.UrlCarriesQuery | rsc/src/auth/client.rs:69-79 | The same for any pairs and any endpoint without query and fragment |
| ClientRequests.AppendPairs | rsc/src/auth/client.rs:71-77 | Appending pairs one by one gives the serialization of them all |
| ClientRequests.AppendPairSerializes | rsc/src/auth/client.rs:71-77 | Appending a pair to a serialized list serializes the longer list |
| Form.ParseSerialized | rsc-mock/src/form.rs:18-24 | Parsing undoes serializing, for all byte strings as names and values |
| Form.ParseConcat | rsc-mock/src/form.rs:18-24 | Parsing distributes over `&` |
| Form.ParseAppend | rsc-mock/src/form.rs:18-24 | Appending after a separator, or to nothing, concatenates the parameters |
| Form.ParseMerged | rsc-mock/src/form.rs:18-24 | Appending inside a piece merges two parameters into one |
| Form.EscapeIsDecoded | rsc-mock/src/form.rs:18-24 | An escape stands for its byte, whichever case its digits have |
| Form.OtherBytesStay | rsc-mock/src/form.rs:18-24 | A percent sign without two digits, and any other byte but `+`, stands for itself |
| Form.PieceIsParsed | rsc-mock/src/form.rs:18-24 | A piece is split at its first `=`, and without one is a name with an empty value |
| Form.SerializedByteExact | rsc-mock/src/oauth/authorize.rs:136-141 | How each byte is serialized: as it is, as `+`, or as an escape with capital digits |
| Form.SerializeAlphabet | rsc-mock/src/oauth/authorize.rs:136-141 | A serialized query holds only URL-safe bytes, `=` and `&` |
| Form.OccursIff | rsc-mock/src/form.rs:27-29 | A parameter is contained exactly when a pair has its name |
| Form.FirstIsLeast | rsc-mock/src/form.rs:33-35 | `first` is the value at the least position that carries the name |
| Form.UniqueIff | rsc-mock/src/form.rs:45-52 | `unique` fails exactly when two positions carry the name |
| Bytes.SplitJoin | rsc/src/auth/callback.rs:36-40 | Splitting undoes joining, for pieces without the separator |
| Bytes.JoinSplit | rsc/src/auth/callback.rs:36-40 | Joining undoes splitting |
| Pkce.GeneratedPairIsAccepted | rsc/src/auth/pkce.rs:15-33 | Whatever 32 bytes the client draws, its verifier and challenge pass the server's checks |
| Pkce.RandomTokenShape | rsc/src/auth/pkce.rs:20-24 | 32 bytes give 43 characters of the URL-safe alphabet |
| Pkce.VerifyExact | rsc-mock/src/pkce.rs:40-47 | A verifier answers a challenge exactly when it has 43 to 128 unreserved characters and the challenge is canonical and decodes to its digest |
| Pkce.AnswerableChallengeIsCanonical | rsc-mock/src/pkce.rs:31-47 | Only canonical challenges can be answered |
| Pkce.ValidChallengeExact | rsc-mock/src/pkce.rs:31-36 | A challenge is well-formed exactly when it decodes to 32 bytes, bits beyond the last byte ignored |
| Pkce.ValidChallengeWithoutVerifier | rsc-mock/src/pkce.rs:31-36 | A challenge that the endpoint accepts and no verifier answers |
| Base64.DecodeExact | rsc-mock/src/pkce.rs:14-16 | The strict decoder accepts exactly the encodings: decoding undoes encoding and nothing else decodes |
| Base64.EncodeInjective | rsc-mock/src/pkce.rs:40-47 | Different digests have different challenges |
| Base64.EncodeShape | rsc-mock/src/pkce.rs:14-16 | Encodings stay in the alphabet and have the length of section 4 of RFC 4648 without padding |
| Base64.EncodeWritesBits | rsc-mock/src/pkce.rs:14-16 | An encoding is the bits of the bytes, most significant first, six to a symbol of the tables of RFC 4648, the last one filled up with zeros |
| Base64.DecodePaddedExact | rsc-mock/src/oauth/client_auth.rs:31-34 | An encoding with any part of its canonical padding decodes to the bytes |
| SessionModel.PlaybackOrder | rsc/src/session.rs:45-121 | Without manual skips a start and any events load exactly the playable tracks that resolve, in order, once each, one more for each end or error; an input finishes exactly when it is an end that finds them all loaded |
| Skips.PlaybackWithKeys | rsc/src/session.rs:45-121 | For any mix of skips, pauses and events: everything sent to the player, the cursor and the pause flag are those of a reference that looks for the first stream from a position, and each input finishes exactly when the reference says so |
| Skips.ActIsExpected | rsc/src/session.rs:45-121 | One input does what the reference says |
| Skips.NextExactly | rsc/src/session.rs:50-56 | The next key loads the first stream after the current track, does nothing on the last one, and finishes exactly when tracks but no streams are left |
| Skips.PreviousExactly | rsc/src/session.rs:59-62 | The previous key loads the first stream from the track before on, on the first track that one again |
| Skips.NextThenPrevious | rsc/src/session.rs:50-62 | Going on and back again returns to the track, if both can be streamed |
| Skips.PauseTwice | rsc/src/session.rs:64-67 | A pause key sends the opposite of the flag, a second one takes it back |
| SessionModel.IgnorableChangesNothing | rsc/src/session.rs:76-84 | Stop, quit, other, position and duration events can be removed from any run without changing it |
| SessionModel.LastLoadIsCurrent | rsc/src/session.rs:45-121 | Under any mix of events, skips and pauses the last stream loaded is that of the current track until the first time the session finishes |
| SessionModel.StartIsOnCurrent | rsc/src/session.rs:45-47 | A start that does not finish begins that way |
| SessionModel.PlayCurrentTakesFirst | rsc/src/session.rs:97-121 | The skip loop loads the first stream left from the cursor on, or finishes when there is none, and leaves exactly the rest |
| Session.PlaybackSession.constructor | rsc/src/session.rs:27-34 | A session over the tracks that are not blocked, not paused, nothing sent |
| Session.PlaybackSession.PlayCurrent | rsc/src/session.rs:97-121 | The loop ends, on the tracks left, in the state and flow of the model |
| Session.PlaybackSession.HandleEvent | rsc/src/session.rs:69-85 | Every event does what the reference says |
| Session.PlaybackSession.AdvanceAfterEnd | rsc/src/session.rs:87-93 | New state and flow at the end of a track |
| Session.PlaybackSession.Start | rsc/src/session.rs:45-47 | New state and flow of a start |
| Session.PlaybackSession.Next | rsc/src/session.rs:50-56 | A skip forward does what the reference says |
| Session.PlaybackSession.Previous | rsc/src/session.rs:59-62 | A skip backward does what the reference says |
| Session.PlaybackSession.TogglePause | rsc/src/session.rs:64-67 | The flag flips and the player is sent its new value, as the reference says |
| PlayQueue.NotBlockedExact | rsc/src/queue.rs:13-24 | Each track that is not blocked is kept as often as it came, a blocked one never |
| PlayQueue.NotBlockedInOrder | rsc/src/queue.rs:13-24 | And in the order they came |
| PlayQueue.Queue.constructor | rsc/src/queue.rs:13-24 | Cursor at the start, blocked tracks dropped and counted |
| PlayQueue.Queue.Advance | rsc/src/queue.rs:31-38 | Moves unless on the last track |
| PlayQueue.Queue.Previous | rsc/src/queue.rs:41-43 | Moves back unless on the first track |
| PlayQueue.Queue.Current | rsc/src/queue.rs:26-28 | The track under the cursor, none exactly in an empty queue |
| Pause.PauseFlagIsRight | rsc/src/session.rs:64-83 | In every run of keys, pauses made elsewhere, events and deliveries, the last pause event on its way tells the player's state; with none the flag does, or the last pause command on its way will make it; with neither the flag does |
| Pause.PauseConverges | rsc/src/player/mpv.rs:183-202 | Left alone the system comes to rest within a bound, and at rest the flag is the player's state |
| Pause.NeverStuck | rsc/src/player/mpv.rs:183-202 | With room in the channel something can move exactly until everything has arrived |
| Pause.EventsArrive | rsc/src/player/mpv.rs:183-202 | In every run, all events but position ticks reach the session in the order they were reported or are still on their way, and ticks too while the channel has room |
| Pause.EventsArriveUnaltered | rsc/src/player/mpv.rs:183-202 | With room in the channel every event arrives, unaltered and in order |
| Pause.ApplyConverges | rsc/src/session.rs:64-110 | Each step keeps the agreement that is under way |
| Pause.PlayCurrentSends | rsc/src/session.rs:105-111 | A load sends at most the load and one unpause, and the flag is what was last sent |

## Left out

- HTTP itself: routing, bodies as streams, announced lengths, header syntax beyond the bytes a value may hold, JSON text, the accept loops and shutdown. The endpoints start from the method, the relevant headers, the query and the body.
- Timing: constant-time comparison, and the quality and entropy of random draws.
- Lossy decoding of invalid UTF-8 in forms: the codec works on bytes. The UTF-8 check on Basic credentials is modelled.
- The URL parser: which texts parse as absolute URLs is any predicate, and for redirect URIs that a user agent rewrites before it sends them (other schemes than `http`, bytes it encodes, dot segments) what the listener sees is not modelled.
- Store.Store.IssueCode: `next_family` is unbounded here, a 64-bit counter in the code.
- Tokens.MarginIsSafe: the client's `now + expires_in` is unbounded here; in the code it overflows for lifetimes close to 2^64 seconds.
- Login.LoginExactly: the registered URI is a plain `http` one that is sent as written, at the listener's address, and has no code, state or error parameter of its own, and the user approves; what happens when the user refuses is in `Authorize.OthersConsumeNothing`.
- RefreshProtocol.DiskTokenUsable: a save is one action, so two saves that share the temporary file at the same moment (a login's and a refresh's) are not modelled.
- RefreshProtocol.RefreshNeverRefused: a refusal is an abstract result. `classify_failure` looks for another error format than the mock sends, so against the mock a refusal is reported as a status; the wording of error bodies is not modelled.
- Manager.AuthManager.GetValidToken: the object methods are proved for a call that nobody overtakes, each as one run of the protocol; overtaking is what the protocol's interleavings are for.
- Manager.ApiClient.GetJson: a response is its status and whether its body arrives and decodes; the URL join is whether the path is valid.
- TokenFile.CrashAtomic: permissions of the file, and the text of its JSON, which either is complete or does not parse.
- Callback.AcceptUntilCallback: a connection brings its request line or nothing, as a silent one and one with invalid UTF-8 do; the draining of headers is not modelled.
- Callback.WaitForCode: only ASCII white space is trimmed from the end of a line.
- Pause.PauseFlagIsRight: `read_events` is a step relation over lines already parsed, and `mpv` is a player that reports each change of its pause state in order.
- SessionModel.PlaybackOrder: which tracks resolve is fixed for a run, `player.load` does not fail, and an end-of-file event that arrives after a manual skip counts as the end of the new track, as in the code.
- The `mpv` process, its socket and messages, terminal keys, signals, the command line, the local folder backend, `Queue::is_empty` and other accessors: input and output, or easy members.
