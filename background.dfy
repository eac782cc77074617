/** The background service worker of background.js: the OAuth 2.0
    authorization-code flow with PKCE and the lifecycle of the stored tokens.

    `chrome.storage.local` is a synchronous map from key to value held by the
    class `ServiceWorker`. Everything the worker cannot compute itself is a
    parameter: the random bytes, the SHA-256 function, the outcome of
    `chrome.identity.launchWebAuthFlow`, the token endpoint's reply and the
    clock reading `now` (milliseconds since the epoch). The requests the worker
    sends out are appended to two logs, so that contracts can say which
    requests a call makes and with what. */
module Background {
  import opened Wrappers
  import Text
  import Pkce

  /** A stored value: the worker stores strings and one number, the expiry. */
  datatype Value = Str(s: string) | Num(n: int)

  /** The storage keys the worker reads and writes by name; `OtherKey`
      stands for any key the worker does not use itself. */
  datatype Key =
    | ClientIdKey | AccessTokenKey | RefreshTokenKey | ExpiresAtKey
    | VerifierKey | StateKey
    | OtherKey(name: string)

  /** The three keys cleared when a refresh fails. */
  const TokenKeys: set<Key> := {AccessTokenKey, RefreshTokenKey, ExpiresAtKey}
  /** The two transient PKCE keys removed at the end of every flow. */
  const PkceKeys: set<Key> := {VerifierKey, StateKey}

  const VerifierLength: nat := 128
  const StateLength: nat := 16
  /** The five-minute safety margin before expiry, in milliseconds. */
  const ExpiryBufferMs: int := 5 * 60 * 1000

  const InvalidClientIdMessage: string := "Invalid client ID provided"
  const NoCodeMessage: string := "No authorization code received"
  const StateMismatchMessage: string := "State parameter mismatch"
  const ExchangeFailedMessage: string := "Token exchange failed"
  const MissingCredentialsMessage: string := "Missing client ID or refresh token"
  const RefreshFailedMessage: string := "Token refresh failed"
  const NoAccessTokenMessage: string := "No access token found"

  /** Strings keys hold strings and the expiry holds a number. */
  predicate WellTyped(m: map<Key, Value>)
  {
    && (ExpiresAtKey in m ==> m[ExpiresAtKey].Num?)
    && (forall k :: k in m && k != ExpiresAtKey ==> m[k].Str?)
  }

  function Get(m: map<Key, Value>, key: Key): Option<Value>
  {
    if key in m then Some(m[key]) else None
  }

  /** JavaScript truthiness of a stored value: a missing key, the empty
      string and the number 0 are falsy. */
  predicate Truthy(v: Option<Value>)
  {
    match v
    case None => false
    case Some(Str(s)) => s != ""
    case Some(Num(n)) => n != 0
  }

  /** The JSON body of a successful token endpoint response. */
  datatype TokenBody = TokenBody(accessToken: string, refreshToken: Option<string>, expiresIn: int)

  /** What `fetch` to the token endpoint yields: an OK response with its body,
      a non-OK one with the optional `error_description` of its body, or a
      rejected promise. */
  datatype TokenReply =
    | Granted(body: TokenBody)
    | Refused(status: int, errorDescription: Option<string>)
    | NetworkError(message: string)

  /** A POST to the token endpoint, as the worker sends it. */
  datatype TokenRequest =
    | AuthorizationCodeGrant(clientId: string, code: string, codeVerifier: string)
    | RefreshTokenGrant(clientId: string, refreshToken: string)

  /** The authorization URL the worker launches, by its varying parameters;
      `response_type=code` and `code_challenge_method=S256` are fixed. */
  datatype AuthorizationRequest = AuthorizationRequest(clientId: string, codeChallenge: string, state: string)

  /** What `launchWebAuthFlow` resolves to: the redirect URL's query
      parameters in order, or the error it rejects with. */
  datatype LaunchOutcome = Redirected(query: seq<(string, string)>) | LaunchFailed(message: string)

  /** The object `initiate_oauth_flow` resolves to. */
  datatype FlowReply = Connected | FlowFailed(message: string)

  function AsSeq<T>(o: Option<T>): seq<T>
  {
    match o
    case None => []
    case Some(x) => [x]
  }

  // ---------------------------------------------------------------------
  // Pure parts of the flow
  // ---------------------------------------------------------------------

  /** `!client_id || client_id.trim() === ""` rejects the id. */
  predicate ValidClientId(clientId: Option<string>)
  {
    clientId.Some? && clientId.value != "" && Text.Trim(clientId.value) != ""
  }

  /** A client id is accepted exactly when it is present and holds a
      character other than whitespace. */
  lemma ValidClientIdIffNotBlank(clientId: Option<string>)
    ensures ValidClientId(clientId) <==> clientId.Some? && !Text.IsBlank(clientId.value)
  {
    if clientId.Some? {
      Text.TrimEmptyIffBlank(clientId.value);
    }
  }

  /** `URLSearchParams.get(key)`: the first value of `key`, or null. */
  function QueryGet(query: seq<(string, string)>, key: string): (r: Option<string>)
    ensures r.Some? <==> exists i :: 0 <= i < |query| && query[i].0 == key
    ensures r.Some? ==> exists i :: 0 <= i < |query| && query[i] == (key, r.value)
                                    && forall j :: 0 <= j < i ==> query[j].0 != key
  {
    if query == [] then None
    else if query[0].0 == key then Some(query[0].1)
    else
      var r := QueryGet(query[1..], key);
      if r.Some? then
        var i :| 0 <= i < |query[1..]| && query[1..][i] == (key, r.value)
                 && forall j :: 0 <= j < i ==> query[1..][j].0 != key;
        assert query[i + 1] == (key, r.value);
        r
      else r
  }

  /** background.js:77-87: the redirect must carry a non-empty `code`
      (checked first) and a `state` equal to the one generated. */
  function RedirectCheck(query: seq<(string, string)>, state: string): (r: Result<string, string>)
    ensures r.Ok? <==> QueryGet(query, "code").Some? && QueryGet(query, "code").value != ""
                       && QueryGet(query, "state") == Some(state)
    ensures r.Ok? ==> QueryGet(query, "code") == Some(r.value)
    ensures (QueryGet(query, "code").None? || QueryGet(query, "code") == Some("")) ==> r == Err(NoCodeMessage)
    ensures r.Err? ==> r.error == NoCodeMessage || r.error == StateMismatchMessage
  {
    var code := QueryGet(query, "code");
    if code.None? || code.value == "" then Err(NoCodeMessage)
    else if QueryGet(query, "state") != Some(state) then Err(StateMismatchMessage)
    else Ok(code.value)
  }

  /** The keys a successful exchange writes. `chrome.storage.local.set`
      drops a property whose value is `undefined`, so a reply without a
      `refresh_token` leaves that key as it was. */
  function WrittenKeys(body: TokenBody): set<Key>
  {
    {AccessTokenKey, ExpiresAtKey} + (if body.refreshToken.Some? then {RefreshTokenKey} else {})
  }

  /** The storage after a successful exchange: the access token, the expiry
      `now + expires_in * 1000` and, when the reply has one, the refresh
      token are written; every other key is untouched. */
  function StoreTokens(m: map<Key, Value>, body: TokenBody, now: int): (r: map<Key, Value>)
    ensures r.Keys == m.Keys + WrittenKeys(body)
    ensures r[AccessTokenKey] == Str(body.accessToken)
    ensures r[ExpiresAtKey] == Num(now + body.expiresIn * 1000)
    ensures body.refreshToken.Some? ==> r[RefreshTokenKey] == Str(body.refreshToken.value)
    ensures forall k :: k in m && k !in WrittenKeys(body) ==> r[k] == m[k]
  {
    var written := m[AccessTokenKey := Str(body.accessToken)][ExpiresAtKey := Num(now + body.expiresIn * 1000)];
    if body.refreshToken.Some? then written[RefreshTokenKey := Str(body.refreshToken.value)] else written
  }

  /** The error `exchange_code_for_token` throws for a reply that is not OK. */
  function ExchangeError(reply: TokenReply): string
    requires !reply.Granted?
  {
    match reply
    case Refused(_, description) =>
      if description.Some? && description.value != "" then description.value else ExchangeFailedMessage
    case NetworkError(message) => message
  }

  /** background.js:132-147: the storage after exchanging a code, or the
      error thrown. On failure nothing is stored. */
  function ExchangeOutcome(m: map<Key, Value>, reply: TokenReply, now: int): (r: Result<map<Key, Value>, string>)
    ensures r.Ok? <==> reply.Granted?
    ensures r.Ok? ==> r.value.Keys == m.Keys + WrittenKeys(reply.body)
                      && r.value[AccessTokenKey] == Str(reply.body.accessToken)
                      && r.value[ExpiresAtKey] == Num(now + reply.body.expiresIn * 1000)
                      && (reply.body.refreshToken.Some? ==>
                            r.value[RefreshTokenKey] == Str(reply.body.refreshToken.value))
                      && forall k :: k in m && k !in WrittenKeys(reply.body) ==> r.value[k] == m[k]
    ensures r.Err? ==> r.error == ExchangeError(reply)
  {
    match reply
    case Granted(body) =>
      Ok(StoreTokens(m, body, now))
    case _ => Err(ExchangeError(reply))
  }

  /** The PKCE values one flow generates: the verifier, its S256 challenge
      and the state, from the bytes the random source gave. */
  datatype Secrets = Secrets(verifier: string, challenge: string, state: string)

  function GenerateSecrets(verifierBytes: seq<Pkce.byte>, stateBytes: seq<Pkce.byte>, sha256: seq<Pkce.byte> -> seq<Pkce.byte>): Secrets
  {
    var verifier := Pkce.GenerateRandomString(verifierBytes);
    Secrets(verifier, Pkce.CreateCodeChallenge(verifier, sha256), Pkce.GenerateRandomString(stateBytes))
  }

  /** Exchanging with the PKCE secrets in storage and removing them afterwards
      ends where exchanging without them would. */
  lemma ExchangeIgnoresSecrets(m: map<Key, Value>, verifier: string, state: string, reply: TokenReply, now: int)
    requires reply.Granted?
    ensures ExchangeOutcome(m[VerifierKey := Str(verifier)][StateKey := Str(state)], reply, now).value - PkceKeys
            == ExchangeOutcome(m, reply, now).value - PkceKeys
  {
  }

  /** What one call of `initiate_oauth_flow` does, as a whole. */
  datatype FlowStep = FlowStep(
    reply: FlowReply,
    storage: map<Key, Value>,
    authorization: Option<AuthorizationRequest>,
    exchange: Option<TokenRequest>)

  /** background.js:32-109 as a function of its inputs: the reply, the storage
      afterwards, the authorization URL launched (if any) and the code
      exchange requested (if any). */
  function OAuthFlowOutcome(
    m: map<Key, Value>, clientId: Option<string>, secrets: Secrets,
    launch: LaunchOutcome, reply: TokenReply, now: int): (r: FlowStep)
    // the `finally` block: the PKCE secrets never outlive the call
    ensures VerifierKey !in r.storage && StateKey !in r.storage
    // every failure leaves the storage as it was, less the PKCE secrets
    ensures r.reply.FlowFailed? ==> r.storage == m - PkceKeys
    // an unusable client id fails before any URL is launched or request sent
    ensures !ValidClientId(clientId) ==>
              r.reply == FlowFailed(InvalidClientIdMessage) && r.authorization.None? && r.exchange.None?
    // a URL is launched exactly for a usable client id
    ensures r.authorization.Some? <==> ValidClientId(clientId)
    // the code is exchanged only after the redirect passed the code and state checks
    ensures r.exchange.Some? <==>
              ValidClientId(clientId) && launch.Redirected?
              && RedirectCheck(launch.query, secrets.state).Ok?
    // every other failure carries the message of the error thrown
    ensures ValidClientId(clientId) && launch.LaunchFailed? ==> r.reply == FlowFailed(launch.message)
    ensures ValidClientId(clientId) && launch.Redirected? && RedirectCheck(launch.query, secrets.state).Err? ==>
              r.reply == FlowFailed(RedirectCheck(launch.query, secrets.state).error)
    ensures r.exchange.Some? && !reply.Granted? ==> r.reply == FlowFailed(ExchangeError(reply))
    // success exactly when every step succeeds, and then the tokens are stored
    ensures r.reply == Connected <==> r.exchange.Some? && reply.Granted?
    ensures r.reply == Connected ==> r.storage == ExchangeOutcome(m, reply, now).value - PkceKeys
  {
    if !ValidClientId(clientId) then FlowStep(FlowFailed(InvalidClientIdMessage), m - PkceKeys, None, None)
    else
      var verifier, state := secrets.verifier, secrets.state;
      var auth := Some(AuthorizationRequest(clientId.value, secrets.challenge, state));
      match launch
      case LaunchFailed(message) => FlowStep(FlowFailed(message), m - PkceKeys, auth, None)
      case Redirected(query) =>
        match RedirectCheck(query, state)
        case Err(message) => FlowStep(FlowFailed(message), m - PkceKeys, auth, None)
        case Ok(code) =>
          var grant := Some(AuthorizationCodeGrant(clientId.value, code, verifier));
          match ExchangeOutcome(m, reply, now)
          case Ok(stored) => FlowStep(Connected, stored - PkceKeys, auth, grant)
          case Err(message) => FlowStep(FlowFailed(message), m - PkceKeys, auth, grant)
  }

  /** The PKCE binding: the code is exchanged with the verifier whose S256
      challenge went out in the authorization URL, by the same client, and
      only after the redirect returned the state that URL carried. */
  lemma FlowBindsVerifierToChallenge(
    m: map<Key, Value>, clientId: Option<string>,
    verifierBytes: seq<Pkce.byte>, stateBytes: seq<Pkce.byte>, sha256: seq<Pkce.byte> -> seq<Pkce.byte>,
    launch: LaunchOutcome, reply: TokenReply, now: int)
    requires |verifierBytes| == VerifierLength && |stateBytes| == StateLength
    ensures var r := OAuthFlowOutcome(m, clientId, GenerateSecrets(verifierBytes, stateBytes, sha256), launch, reply, now);
            r.exchange.Some? ==>
              && r.authorization.Some?
              && r.exchange.value.AuthorizationCodeGrant?
              && r.exchange.value.clientId == r.authorization.value.clientId
              && Pkce.IsValidVerifier(r.exchange.value.codeVerifier)
              && r.authorization.value.codeChallenge
                 == Pkce.Base64UrlEncode(sha256(Pkce.Utf8Encode(r.exchange.value.codeVerifier)))
              && QueryGet(launch.query, "state") == Some(r.authorization.value.state)
              && QueryGet(launch.query, "code") == Some(r.exchange.value.code)
  {
    Pkce.VerifierIsValid(verifierBytes);
  }

  /** A returned `state` that differs from the generated one fails the flow
      with the mismatch error and no code exchange, whatever the token
      endpoint would have answered. */
  lemma StateMismatchNeverExchanges(
    m: map<Key, Value>, clientId: Option<string>, secrets: Secrets,
    query: seq<(string, string)>, reply: TokenReply, now: int)
    requires ValidClientId(clientId)
    requires QueryGet(query, "code").Some? && QueryGet(query, "code").value != ""
    requires QueryGet(query, "state") != Some(secrets.state)
    ensures var r := OAuthFlowOutcome(m, clientId, secrets, Redirected(query), reply, now);
            r.reply == FlowFailed(StateMismatchMessage) && r.exchange.None? && r.storage == m - PkceKeys
  {
  }

  /** `s` is `m` after storing the tokens of `body` at time `now` and
      dropping the PKCE secrets: no other key is added, removed or changed,
      and a stored refresh token survives a reply without one. */
  predicate StoresTokensOnly(m: map<Key, Value>, s: map<Key, Value>, body: TokenBody, now: int)
  {
    && s.Keys == (m.Keys + WrittenKeys(body)) - PkceKeys
    && AccessTokenKey in s && s[AccessTokenKey] == Str(body.accessToken)
    && ExpiresAtKey in s && s[ExpiresAtKey] == Num(now + body.expiresIn * 1000)
    && (body.refreshToken.Some? ==> RefreshTokenKey in s && s[RefreshTokenKey] == Str(body.refreshToken.value))
    && forall k :: k in m && k !in WrittenKeys(body) && k !in PkceKeys ==> k in s && s[k] == m[k]
  }

  /** The storage a granted exchange leaves, once the secrets are removed. */
  lemma ExchangeStoresTokensOnly(m: map<Key, Value>, reply: TokenReply, now: int)
    requires reply.Granted?
    ensures StoresTokensOnly(m, ExchangeOutcome(m, reply, now).value - PkceKeys, reply.body, now)
  {
    var stored := ExchangeOutcome(m, reply, now).value;
    var s := stored - PkceKeys;
    assert AccessTokenKey !in PkceKeys && ExpiresAtKey !in PkceKeys && RefreshTokenKey !in PkceKeys;
    forall k | k in m && k !in WrittenKeys(reply.body) && k !in PkceKeys
      ensures k in s && s[k] == m[k]
    {
      assert s[k] == stored[k];
    }
  }

  /** A successful flow stores the token triple with the computed expiry and
      touches no other key but the PKCE secrets it removes. */
  lemma FlowSuccessStoresTokens(
    m: map<Key, Value>, clientId: Option<string>, secrets: Secrets,
    launch: LaunchOutcome, reply: TokenReply, now: int)
    requires OAuthFlowOutcome(m, clientId, secrets, launch, reply, now).reply == Connected
    ensures reply.Granted?
    ensures StoresTokensOnly(m, OAuthFlowOutcome(m, clientId, secrets, launch, reply, now).storage, reply.body, now)
  {
    ExchangeStoresTokensOnly(m, reply, now);
  }

  // ---------------------------------------------------------------------
  // Refresh and the valid-token query
  // ---------------------------------------------------------------------

  /** Both a client id and a refresh token are stored and truthy. */
  predicate HasRefreshCredentials(m: map<Key, Value>)
  {
    Truthy(Get(m, ClientIdKey)) && Truthy(Get(m, RefreshTokenKey))
  }

  /** What a refresh (or a valid-token query) returns, leaves in storage and
      sends to the token endpoint. */
  datatype TokenStep = TokenStep(result: Result<string, string>, storage: map<Key, Value>, request: Option<TokenRequest>)

  function RefreshError(reply: TokenReply): string
    requires !reply.Granted?
  {
    if reply.NetworkError? then reply.message else RefreshFailedMessage
  }

  /** background.js:150-206 as a function of the storage, the reply and the
      clock. */
  function RefreshOutcome(m: map<Key, Value>, reply: TokenReply, now: int): (r: TokenStep)
    requires WellTyped(m)
    ensures WellTyped(r.storage)
    // a request goes out exactly when both credentials are there
    ensures r.request.Some? <==> HasRefreshCredentials(m)
    ensures r.request.Some? ==> r.request.value == RefreshTokenGrant(m[ClientIdKey].s, m[RefreshTokenKey].s)
    // every failure clears exactly the three token keys and nothing else
    ensures r.result.Err? <==> !HasRefreshCredentials(m) || !reply.Granted?
    ensures r.result.Err? ==> r.storage == m - TokenKeys
    // success: new access token and expiry, refresh token replaced only when one came back
    ensures r.result.Ok? ==>
              && r.result.value == reply.body.accessToken
              && r.storage.Keys == m.Keys + {AccessTokenKey, ExpiresAtKey}
              && r.storage[AccessTokenKey] == Str(reply.body.accessToken)
              && r.storage[ExpiresAtKey] == Num(now + reply.body.expiresIn * 1000)
              && r.storage[RefreshTokenKey]
                 == (if reply.body.refreshToken.Some? && reply.body.refreshToken.value != ""
                     then Str(reply.body.refreshToken.value) else m[RefreshTokenKey])
              && forall k :: k in m && k !in TokenKeys ==> r.storage[k] == m[k]
  {
    if !HasRefreshCredentials(m) then TokenStep(Err(MissingCredentialsMessage), m - TokenKeys, None)
    else
      var request := Some(RefreshTokenGrant(m[ClientIdKey].s, m[RefreshTokenKey].s));
      match reply
      case Granted(body) =>
        var updated := m[AccessTokenKey := Str(body.accessToken)][ExpiresAtKey := Num(now + body.expiresIn * 1000)];
        var stored :=
          if body.refreshToken.Some? && body.refreshToken.value != ""
          then updated[RefreshTokenKey := Str(body.refreshToken.value)]
          else updated;
        TokenStep(Ok(body.accessToken), stored, request)
      case _ => TokenStep(Err(RefreshError(reply)), m - TokenKeys, request)
  }

  /** `expires_at && Date.now() >= expires_at - buffer_time`. */
  predicate NeedsRefresh(m: map<Key, Value>, now: int)
    requires WellTyped(m)
  {
    Truthy(Get(m, ExpiresAtKey)) && now >= m[ExpiresAtKey].n - ExpiryBufferMs
  }

  /** background.js:208-228 as a function of the storage, the reply a refresh
      would get and the clock. */
  function ValidTokenOutcome(m: map<Key, Value>, reply: TokenReply, now: int): (r: TokenStep)
    requires WellTyped(m)
    ensures WellTyped(r.storage)
    // no stored access token: an error, and nothing changes or is sent
    ensures !Truthy(Get(m, AccessTokenKey)) ==> r == TokenStep(Err(NoAccessTokenMessage), m, None)
    // a token outside the buffer is returned as stored, nothing changes or is sent
    ensures Truthy(Get(m, AccessTokenKey)) && !NeedsRefresh(m, now) ==>
              r == TokenStep(Ok(m[AccessTokenKey].s), m, None)
    // inside the buffer the answer is the refresh's
    ensures Truthy(Get(m, AccessTokenKey)) && NeedsRefresh(m, now) ==> r == RefreshOutcome(m, reply, now)
  {
    if !Truthy(Get(m, AccessTokenKey)) then TokenStep(Err(NoAccessTokenMessage), m, None)
    else if NeedsRefresh(m, now) then RefreshOutcome(m, reply, now)
    else TokenStep(Ok(m[AccessTokenKey].s), m, None)
  }

  /** A token the worker hands out without refreshing is valid for more
      than five minutes yet (or has no recorded expiry). */
  lemma ReturnedTokenIsFresh(m: map<Key, Value>, reply: TokenReply, now: int)
    requires WellTyped(m)
    requires ValidTokenOutcome(m, reply, now).request.None?
    requires ValidTokenOutcome(m, reply, now).result.Ok?
    ensures ValidTokenOutcome(m, reply, now).result.value == m[AccessTokenKey].s
    ensures ExpiresAtKey in m && m[ExpiresAtKey].n != 0 ==> now < m[ExpiresAtKey].n - ExpiryBufferMs
  {
  }

  /** After a token exchange with `expires_in` seconds and before the last
      five minutes of that lifetime, the stored token is returned without a
      refresh; from then on a refresh is asked for. */
  lemma ExchangedTokenLifetime(m: map<Key, Value>, reply: TokenReply, issued: int, later: int, reply2: TokenReply)
    requires WellTyped(m) && reply.Granted? && reply.body.accessToken != ""
    requires issued + reply.body.expiresIn * 1000 != 0
    ensures var stored := ExchangeOutcome(m, reply, issued).value;
            && WellTyped(stored)
            && (later < issued + reply.body.expiresIn * 1000 - ExpiryBufferMs ==>
                  ValidTokenOutcome(stored, reply2, later) == TokenStep(Ok(reply.body.accessToken), stored, None))
            && (later >= issued + reply.body.expiresIn * 1000 - ExpiryBufferMs ==>
                  ValidTokenOutcome(stored, reply2, later) == RefreshOutcome(stored, reply2, later))
  {
    var stored := ExchangeOutcome(m, reply, issued).value;
    assert WellTyped(stored);
  }

  /** An exchange whose reply has no `refresh_token` keeps the refresh token
      an earlier login stored, and the next refresh sends that token; the
      refresh tokens the two grants carry are the ones `refresh_access_token`
      finds in storage. */
  lemma ExchangeKeepsRefreshToken(m: map<Key, Value>, reply: TokenReply, issued: int, reply2: TokenReply, later: int)
    requires WellTyped(m) && reply.Granted?
    ensures var stored := ExchangeOutcome(m, reply, issued).value;
            && WellTyped(stored)
            && (reply.body.refreshToken.None? ==> Get(stored, RefreshTokenKey) == Get(m, RefreshTokenKey))
            && (HasRefreshCredentials(stored) ==>
                  RefreshOutcome(stored, reply2, later).request
                  == Some(RefreshTokenGrant(m[ClientIdKey].s,
                                            if reply.body.refreshToken.Some? then reply.body.refreshToken.value
                                            else m[RefreshTokenKey].s)))
  {
    var stored := ExchangeOutcome(m, reply, issued).value;
    assert WellTyped(stored);
    assert ClientIdKey !in WrittenKeys(reply.body);
  }

  // ---------------------------------------------------------------------
  // The worker
  // ---------------------------------------------------------------------

  class ServiceWorker {
    /** `chrome.storage.local`. */
    var storage: map<Key, Value>
    /** Every POST sent to the token endpoint, oldest first. */
    var tokenRequests: seq<TokenRequest>
    /** Every authorization URL launched, oldest first. */
    var authorizationRequests: seq<AuthorizationRequest>
    /** How many times `refresh_access_token` has been entered. */
    ghost var refreshAttempts: nat

    ghost predicate Valid()
      reads this
    {
      WellTyped(storage)
    }

    constructor (initial: map<Key, Value>)
      requires WellTyped(initial)
      ensures Valid()
      ensures storage == initial && tokenRequests == [] && authorizationRequests == [] && refreshAttempts == 0
    {
      storage := initial;
      tokenRequests := [];
      authorizationRequests := [];
      refreshAttempts := 0;
    }

    /** `exchange_code_for_token`: one POST with the code and the verifier;
        `None` when the tokens were stored, the thrown message otherwise. */
    method ExchangeCodeForToken(clientId: string, code: string, codeVerifier: string, reply: TokenReply, now: int)
      returns (error: Option<string>)
      requires Valid()
      modifies this
      ensures Valid()
      ensures tokenRequests == old(tokenRequests) + [AuthorizationCodeGrant(clientId, code, codeVerifier)]
      ensures authorizationRequests == old(authorizationRequests) && refreshAttempts == old(refreshAttempts)
      ensures match ExchangeOutcome(old(storage), reply, now)
              case Ok(stored) => error.None? && storage == stored
              case Err(message) => error == Some(message) && storage == old(storage)
    {
      tokenRequests := tokenRequests + [AuthorizationCodeGrant(clientId, code, codeVerifier)];
      if !reply.Granted? {
        error := Some(ExchangeError(reply));
        return;
      }
      var body := reply.body;
      var expiresAt := now + body.expiresIn * 1000;
      storage := storage[AccessTokenKey := Str(body.accessToken)];
      if body.refreshToken.Some? {
        storage := storage[RefreshTokenKey := Str(body.refreshToken.value)];
      }
      storage := storage[ExpiresAtKey := Num(expiresAt)];
      error := None;
    }

    /** `initiate_oauth_flow`: validates the client id, stores the PKCE
        secrets, launches the authorization URL, checks the redirect,
        exchanges the code, and in every case removes the secrets again. */
    method InitiateOAuthFlow(
      clientId: Option<string>,
      verifierBytes: seq<Pkce.byte>, stateBytes: seq<Pkce.byte>, sha256: seq<Pkce.byte> -> seq<Pkce.byte>,
      launch: LaunchOutcome, reply: TokenReply, now: int)
      returns (r: FlowReply)
      requires Valid()
      requires |verifierBytes| == VerifierLength && |stateBytes| == StateLength
      modifies this
      ensures Valid()
      ensures var step := OAuthFlowOutcome(old(storage), clientId, GenerateSecrets(verifierBytes, stateBytes, sha256), launch, reply, now);
              && r == step.reply
              && storage == step.storage
              && authorizationRequests == old(authorizationRequests) + AsSeq(step.authorization)
              && tokenRequests == old(tokenRequests) + AsSeq(step.exchange)
      ensures refreshAttempts == old(refreshAttempts)
    {
      // the secrets are pure values of the random bytes, so computing them
      // ahead of the client-id check changes nothing observable
      var secrets := GenerateSecrets(verifierBytes, stateBytes, sha256);
      if !ValidClientId(clientId) {
        // thrown before anything is stored; the `finally` still runs
        storage := storage - PkceKeys;
        return FlowFailed(InvalidClientIdMessage);
      }
      var failure := Authorize(clientId.value, secrets, launch, reply, now);
      // finally
      storage := storage - PkceKeys;
      r := if failure.None? then Connected else FlowFailed(failure.value);
    }

    /** The body of the `try` in `initiate_oauth_flow` once the client id
        passed: store the secrets, launch, check the redirect, exchange.
        `None` on success, the thrown message otherwise; the secrets are
        still in storage on return. */
    method Authorize(clientId: string, secrets: Secrets, launch: LaunchOutcome, reply: TokenReply, now: int)
      returns (failure: Option<string>)
      requires Valid() && ValidClientId(Some(clientId))
      modifies this
      ensures Valid()
      ensures var step := OAuthFlowOutcome(old(storage), Some(clientId), secrets, launch, reply, now);
              && (failure.None? <==> step.reply == Connected)
              && (failure.Some? ==> step.reply == FlowFailed(failure.value))
              && storage - PkceKeys == step.storage
              && authorizationRequests == old(authorizationRequests) + AsSeq(step.authorization)
              && tokenRequests == old(tokenRequests) + AsSeq(step.exchange)
      ensures refreshAttempts == old(refreshAttempts)
    {
      ghost var m := storage;
      storage := storage[VerifierKey := Str(secrets.verifier)][StateKey := Str(secrets.state)];
      assert WellTyped(storage);
      assert storage - PkceKeys == m - PkceKeys;
      authorizationRequests := authorizationRequests + [AuthorizationRequest(clientId, secrets.challenge, secrets.state)];
      match launch {
        case LaunchFailed(message) =>
          failure := Some(message);
        case Redirected(query) =>
          var checked := RedirectCheck(query, secrets.state);
          if checked.Err? {
            failure := Some(checked.error);
          } else {
            failure := ExchangeCodeForToken(clientId, checked.value, secrets.verifier, reply, now);
            if failure.None? {
              ExchangeIgnoresSecrets(m, secrets.verifier, secrets.state, reply, now);
            }
          }
      }
    }

    /** `refresh_access_token`: `Ok` with the new access token, or `Err`
        with the rethrown message after the three token keys are cleared. */
    method RefreshAccessToken(reply: TokenReply, now: int) returns (r: Result<string, string>)
      requires Valid()
      modifies this
      ensures Valid()
      ensures var step := RefreshOutcome(old(storage), reply, now);
              r == step.result && storage == step.storage && tokenRequests == old(tokenRequests) + AsSeq(step.request)
      ensures authorizationRequests == old(authorizationRequests)
      ensures refreshAttempts == old(refreshAttempts) + 1
    {
      refreshAttempts := refreshAttempts + 1;
      var failure: string;
      if !Truthy(Get(storage, ClientIdKey)) || !Truthy(Get(storage, RefreshTokenKey)) {
        failure := MissingCredentialsMessage;
      } else {
        tokenRequests := tokenRequests + [RefreshTokenGrant(storage[ClientIdKey].s, storage[RefreshTokenKey].s)];
        if reply.Granted? {
          var body := reply.body;
          var expiresAt := now + body.expiresIn * 1000;
          storage := storage[AccessTokenKey := Str(body.accessToken)][ExpiresAtKey := Num(expiresAt)];
          if body.refreshToken.Some? && body.refreshToken.value != "" {
            storage := storage[RefreshTokenKey := Str(body.refreshToken.value)];
          }
          return Ok(body.accessToken);
        }
        failure := RefreshError(reply);
      }
      // catch: clear the tokens and rethrow
      storage := storage - TokenKeys;
      r := Err(failure);
    }

    /** `get_valid_access_token`: the stored token, or a refreshed one when it
        expires within five minutes; a refresh is attempted exactly then. */
    method GetValidAccessToken(reply: TokenReply, now: int) returns (r: Result<string, string>)
      requires Valid()
      modifies this
      ensures Valid()
      ensures var step := ValidTokenOutcome(old(storage), reply, now);
              r == step.result && storage == step.storage && tokenRequests == old(tokenRequests) + AsSeq(step.request)
      ensures authorizationRequests == old(authorizationRequests)
      ensures refreshAttempts == old(refreshAttempts)
                + (if Truthy(Get(old(storage), AccessTokenKey)) && NeedsRefresh(old(storage), now) then 1 else 0)
    {
      if !Truthy(Get(storage, AccessTokenKey)) {
        return Err(NoAccessTokenMessage);
      }
      var expiresAt := Get(storage, ExpiresAtKey);
      if Truthy(expiresAt) && now >= expiresAt.value.n - ExpiryBufferMs {
        r := RefreshAccessToken(reply, now);
        return;
      }
      r := Ok(storage[AccessTokenKey].s);
    }
  }
}
