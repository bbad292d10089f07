/** The J-Quants API client of utils/jquantsApi.ts.

    The module holds two process-wide variables, the cached access token (the
    `idToken` of `auth_refresh`) and the refresh token (from the environment at
    start-up, or from `auth_user`). `getAccessToken` is a short state machine
    over them; `fetchStockData` and `fetchDividendData` obtain a token and
    check the shape of the upstream reply.

    Nothing here talks to the network: every upstream reply is an input
    (`Reply`), and every request the client would send is recorded in the
    `calls` it returns, so that "no network call" can be stated. The env file
    `.env.local` is the `envContent` string. */
module JQuantsApi {
  import opened Wrappers
  import EnvFile

  const CredentialsNotSet := "J-Quants API credentials are not set"
  const NoRefreshToken := "Failed to obtain refresh token from J-Quants API"
  const RefreshTokenAuthFailed := "Authentication failed (refresh token): "
  const NoIdToken := "Failed to obtain ID token from J-Quants API"
  const IdTokenAuthFailed := "Authentication failed (ID token): "
  const PricesFormatError := "Unexpected data format received from J-Quants API for stock prices"
  const PricesFetchFailed := "Failed to fetch stock data: "
  const DividendsFormatError := "Unexpected data format received from J-Quants API for dividends"
  const DividendsFetchFailed := "Failed to fetch dividend data: "

  /** A thrown JavaScript value: an `Error` with its message, or anything else. */
  datatype Thrown = Error(message: string) | NonError

  /** What axios reports for a failed request: the `message` field of the
      JSON error body, if there is one, and the axios error's own message. */
  datatype HttpFailure = HttpFailure(bodyMessage: Option<string>, message: string)

  /** `error.response?.data?.message || error.message` */
  function Describe(f: HttpFailure): (r: string)
    // the body's message when it is a non-empty string, else axios's own
    ensures Truthy(f.bodyMessage) ==> r == f.bodyMessage.value
    ensures !Truthy(f.bodyMessage) ==> r == f.message
  {
    if Truthy(f.bodyMessage) then f.bodyMessage.value else f.message
  }

  /** The upstream's reply to one request: an HTTP-level failure, or a JSON
      body whose field of interest is absent (`None`, which also stands for a
      missing body or, for the data lists, a value that is not an array). */
  datatype Reply<T> = Failed(failure: HttpFailure) | Received(field: Option<T>)

  /** The requests the client sends upstream. */
  datatype Request =
    | AuthUser(mailaddress: string, password: string)
    | AuthRefresh(refreshtoken: string)
    | GetPrices(date: string, bearer: string)
    | GetDividends(date: string, bearer: string)

  /** `JQUANTS_EMAIL` and `JQUANTS_PASSWORD` from the environment. */
  datatype Credentials = Credentials(email: Option<string>, password: Option<string>)

  /** The replies `auth_user` and `auth_refresh` give if they are asked. */
  datatype AuthReplies = AuthReplies(user: Reply<string>, refresh: Reply<string>)

  datatype StockRecord = StockRecord(
    code: string, companyName: string, market: string, close: real, marketCapitalization: real)

  datatype DividendRecord = DividendRecord(code: string, dividendPerShare: real)

  /** The client's state: the two module variables and the env file. */
  datatype TokenState = TokenState(accessToken: Option<string>, refreshToken: Option<string>, envContent: string)

  /** The outcome of one call: the new state, the value returned or the error
      thrown, and the requests sent, in order. */
  datatype Attempt<T> = Attempt(state: TokenState, result: Result<T, Thrown>, calls: seq<Request>)

  /** The state at module load: `process.env.JQUANTS_REFRESH_TOKEN || null`. */
  function Initial(envRefreshToken: Option<string>, envFile: string): (s: TokenState)
    ensures s.accessToken == None && s.envContent == envFile
    ensures Truthy(envRefreshToken) ==> s.refreshToken == envRefreshToken
    ensures !Truthy(envRefreshToken) ==> s.refreshToken == None
  {
    TokenState(None, if Truthy(envRefreshToken) then envRefreshToken else None, envFile)
  }

  /** No stored token is the empty string, so the truthiness tests of the
      source are null tests on the stored tokens. */
  predicate StoredTokensTruthy(s: TokenState) {
    (s.accessToken.Some? ==> Truthy(s.accessToken)) && (s.refreshToken.Some? ==> Truthy(s.refreshToken))
  }

  /** The `auth_refresh` exchange (the second `try` of `getAccessToken`),
      after the requests in `sent`. */
  function RefreshExchange(s: TokenState, reply: Reply<string>, sent: seq<Request>): (a: Attempt<string>)
    requires Truthy(s.refreshToken)
    ensures a.calls == sent + [AuthRefresh(s.refreshToken.value)]
    ensures a.result.Ok? <==> reply.Received? && Truthy(reply.field)
    ensures a.result.Ok? ==> a.result.value == reply.field.value && a.state == s.(accessToken := reply.field)
    ensures a.result.Err? ==> a.state == s
    // an HTTP failure is wrapped; a reply without a token is not
    ensures reply.Failed? ==> a.result == Err(Error(IdTokenAuthFailed + Describe(reply.failure)))
    ensures reply.Received? && !Truthy(reply.field) ==> a.result == Err(Error(NoIdToken))
  {
    var sent := sent + [AuthRefresh(s.refreshToken.value)];
    match reply
    case Failed(f) => Attempt(s, Err(Error(IdTokenAuthFailed + Describe(f))), sent)
    case Received(t) =>
      if !Truthy(t) then Attempt(s, Err(Error(NoIdToken)), sent)
      else Attempt(s.(accessToken := t), Ok(t.value), sent)
  }

  predicate HasCredentials(creds: Credentials) {
    Truthy(creds.email) && Truthy(creds.password)
  }

  /** One call of `getAccessToken`. */
  function AccessTokenAttempt(s: TokenState, creds: Credentials, replies: AuthReplies): (a: Attempt<string>)
    // a returned token is the one now cached; a failure leaves the cache as it was
    ensures a.result.Ok? ==> Truthy(a.state.accessToken) && a.state.accessToken.value == a.result.value
    ensures a.result.Err? ==> a.state.accessToken == s.accessToken
    // a cache hit returns the cached token; otherwise the token returned is
    // the idToken of auth_refresh
    ensures Truthy(s.accessToken) ==> a.result == Ok(s.accessToken.value)
    ensures a.result.Ok? && !Truthy(s.accessToken) ==> replies.refresh == Received(Some(a.result.value))
    // with a refresh token held and no cached token, the call is the
    // auth_refresh exchange alone
    ensures !Truthy(s.accessToken) && Truthy(s.refreshToken) ==> a == RefreshExchange(s, replies.refresh, [])
    // after a successful auth_user, the call continues with the auth_refresh
    // exchange on the new refresh token, which is already persisted
    ensures !Truthy(s.accessToken) && !Truthy(s.refreshToken) && HasCredentials(creds) &&
            replies.user.Received? && Truthy(replies.user.field) ==>
      a == RefreshExchange(s.(refreshToken := replies.user.field,
                              envContent := EnvFile.ReplaceKeyLine(s.envContent, replies.user.field.value)),
                           replies.refresh, [AuthUser(creds.email.value, creds.password.value)])
    // a refresh token already held is kept; a new one is the one auth_user
    // issued, and it is then written to the env file
    ensures Truthy(s.refreshToken) ==> a.state.refreshToken == s.refreshToken
    ensures a.state.refreshToken != s.refreshToken ==>
      replies.user == Received(a.state.refreshToken) && Truthy(a.state.refreshToken) &&
      a.state.envContent == EnvFile.ReplaceKeyLine(s.envContent, a.state.refreshToken.value)
    ensures a.state.refreshToken == s.refreshToken ==> a.state.envContent == s.envContent
    // the network is used exactly when the cache misses and a token can be
    // asked for; auth_user exactly when no refresh token is held
    ensures a.calls == [] <==> Truthy(s.accessToken) || (!Truthy(s.refreshToken) && !HasCredentials(creds))
    ensures (a.calls != [] && a.calls[0].AuthUser?) <==>
      !Truthy(s.accessToken) && !Truthy(s.refreshToken) && HasCredentials(creds)
    ensures a.calls != [] && a.calls[0].AuthUser? ==>
      a.calls[0] == AuthUser(creds.email.value, creds.password.value)
    // every other request is one auth_refresh with the refresh token now held
    ensures |a.calls| <= 2
    ensures forall k :: 0 < k < |a.calls| ==> !a.calls[k].AuthUser?
    ensures forall k :: 0 <= k < |a.calls| && !a.calls[k].AuthUser? ==>
      a.calls[k].AuthRefresh? && a.state.refreshToken == Some(a.calls[k].refreshtoken)
  {
    if Truthy(s.accessToken) then Attempt(s, Ok(s.accessToken.value), [])
    else if Truthy(s.refreshToken) then RefreshExchange(s, replies.refresh, [])
    else if !HasCredentials(creds) then Attempt(s, Err(Error(CredentialsNotSet)), [])
    else
      var sent := [AuthUser(creds.email.value, creds.password.value)];
      match replies.user
      case Failed(f) => Attempt(s, Err(Error(RefreshTokenAuthFailed + Describe(f))), sent)
      case Received(t) =>
        if !Truthy(t) then Attempt(s, Err(Error(NoRefreshToken)), sent)
        else
          var s' := s.(refreshToken := t, envContent := EnvFile.ReplaceKeyLine(s.envContent, t.value));
          RefreshExchange(s', replies.refresh, sent)
  }

  /** The checks inside the `try` of the two fetch functions: an HTTP failure
      is wrapped with `fetchFailed`; a body without the list (or with a
      non-array in its place) fails with `formatError`, which is not an axios
      error and so is rethrown as it is; an array, empty or not, is returned
      unchanged. */
  function CheckData<T>(reply: Reply<seq<T>>, formatError: string, fetchFailed: string): (r: Result<seq<T>, Thrown>)
    ensures r.Ok? <==> reply.Received? && reply.field.Some?
    ensures r.Ok? ==> r.value == reply.field.value
    ensures reply.Failed? ==> r == Err(Error(fetchFailed + Describe(reply.failure)))
    ensures reply == Received(None) ==> r == Err(Error(formatError))
  {
    match reply
    case Failed(f) => Err(Error(fetchFailed + Describe(f)))
    case Received(None) => Err(Error(formatError))
    case Received(Some(xs)) => Ok(xs)
  }

  /** One call of `fetchStockData(date)`; `getAccessToken` is awaited before
      the `try`, so its failures reach the caller unwrapped. */
  function StockDataAttempt(s: TokenState, date: string, creds: Credentials, auth: AuthReplies,
                            reply: Reply<seq<StockRecord>>): (a: Attempt<seq<StockRecord>>)
    ensures var t := AccessTokenAttempt(s, creds, auth);
      a.state == t.state &&
      (t.result.Err? ==> a.result == Err(t.result.error) && a.calls == t.calls) &&
      (t.result.Ok? ==> a.result == CheckData(reply, PricesFormatError, PricesFetchFailed) &&
                        a.calls == t.calls + [GetPrices(date, t.result.value)])
  {
    var t := AccessTokenAttempt(s, creds, auth);
    match t.result
    case Err(e) => Attempt(t.state, Err(e), t.calls)
    case Ok(token) =>
      Attempt(t.state, CheckData(reply, PricesFormatError, PricesFetchFailed), t.calls + [GetPrices(date, token)])
  }

  /** One call of `fetchDividendData(date)`, the same steps against the
      dividends endpoint. */
  function DividendDataAttempt(s: TokenState, date: string, creds: Credentials, auth: AuthReplies,
                               reply: Reply<seq<DividendRecord>>): (a: Attempt<seq<DividendRecord>>)
    ensures var t := AccessTokenAttempt(s, creds, auth);
      a.state == t.state &&
      (t.result.Err? ==> a.result == Err(t.result.error) && a.calls == t.calls) &&
      (t.result.Ok? ==> a.result == CheckData(reply, DividendsFormatError, DividendsFetchFailed) &&
                        a.calls == t.calls + [GetDividends(date, t.result.value)])
  {
    var t := AccessTokenAttempt(s, creds, auth);
    match t.result
    case Err(e) => Attempt(t.state, Err(e), t.calls)
    case Ok(token) =>
      Attempt(t.state, CheckData(reply, DividendsFormatError, DividendsFetchFailed), t.calls + [GetDividends(date, token)])
  }

  /** A cached access token is returned as it is, with no request and no
      change of state. */
  lemma CachedTokenReturned(s: TokenState, creds: Credentials, replies: AuthReplies)
    requires Truthy(s.accessToken)
    ensures AccessTokenAttempt(s, creds, replies) == Attempt(s, Ok(s.accessToken.value), [])
  {
  }

  /** With no token at all and the email or the password unset, the call
      fails before any request and changes nothing. */
  lemma MissingCredentialsFail(s: TokenState, creds: Credentials, replies: AuthReplies)
    requires !Truthy(s.accessToken) && !Truthy(s.refreshToken)
    requires !Truthy(creds.email) || !Truthy(creds.password)
    ensures AccessTokenAttempt(s, creds, replies) == Attempt(s, Err(Error(CredentialsNotSet)), [])
  {
  }

  /** The usual path after start-up: with a refresh token loaded from the
      environment, one `auth_refresh` is sent, and its `idToken` is cached
      and returned; the refresh token and the env file are untouched. */
  lemma StoredRefreshTokenSuccess(envRefreshToken: string, envFile: string, creds: Credentials,
                                  user: Reply<string>, id: string)
    requires envRefreshToken != "" && id != ""
    ensures var s := Initial(Some(envRefreshToken), envFile);
      AccessTokenAttempt(s, creds, AuthReplies(user, Received(Some(id))))
        == Attempt(TokenState(Some(id), Some(envRefreshToken), envFile), Ok(id), [AuthRefresh(envRefreshToken)])
  {
  }

  /** A failed `auth_refresh` with a refresh token held: the ID-token error
      (wrapped for an HTTP failure, unwrapped for a missing `idToken`), no
      change of state, and only the one `auth_refresh` sent. */
  lemma StoredRefreshTokenFails(s: TokenState, creds: Credentials, replies: AuthReplies)
    requires !Truthy(s.accessToken) && Truthy(s.refreshToken)
    requires replies.refresh.Failed? || !Truthy(replies.refresh.field)
    ensures AccessTokenAttempt(s, creds, replies)
      == Attempt(s, Err(Error(if replies.refresh.Failed? then IdTokenAuthFailed + Describe(replies.refresh.failure)
                                                        else NoIdToken)),
                 [AuthRefresh(s.refreshToken.value)])
  {
  }

  /** The first-time path: the refresh token `auth_user` issues is kept and
      persisted, it is what `auth_refresh` is sent, and the `idToken` that
      comes back is cached and returned. */
  lemma FirstTimeSuccess(s: TokenState, email: string, password: string, refresh: string, id: string)
    requires !Truthy(s.accessToken) && !Truthy(s.refreshToken)
    requires email != "" && password != "" && refresh != "" && id != ""
    ensures AccessTokenAttempt(s, Credentials(Some(email), Some(password)),
                               AuthReplies(Received(Some(refresh)), Received(Some(id))))
         == Attempt(TokenState(Some(id), Some(refresh), EnvFile.ReplaceKeyLine(s.envContent, refresh)),
                    Ok(id), [AuthUser(email, password), AuthRefresh(refresh)])
  {
  }

  /** A failed `auth_user` leaves the state as it was: a reply without a
      refresh token fails with its own message (not wrapped, as it is not an
      axios error); an HTTP failure is wrapped with the upstream's message.
      `auth_refresh` is not asked. */
  lemma CredentialExchangeFails(s: TokenState, creds: Credentials, replies: AuthReplies)
    requires !Truthy(s.accessToken) && !Truthy(s.refreshToken) && HasCredentials(creds)
    requires replies.user.Failed? || !Truthy(replies.user.field)
    ensures var a := AccessTokenAttempt(s, creds, replies);
      a.state == s && a.calls == [AuthUser(creds.email.value, creds.password.value)] &&
      a.result == Err(Error(if replies.user.Failed? then RefreshTokenAuthFailed + Describe(replies.user.failure)
                                                    else NoRefreshToken))
  {
  }

  /** When `auth_refresh` fails after a successful `auth_user`, no access
      token is cached but the new refresh token stays held and persisted; so
      the next call goes straight to `auth_refresh` with it. */
  lemma RefreshFailureKeepsRefreshToken(s: TokenState, creds: Credentials, replies: AuthReplies,
                                        creds': Credentials, replies': AuthReplies)
    requires !Truthy(s.accessToken) && !Truthy(s.refreshToken) && HasCredentials(creds)
    requires replies.user.Received? && Truthy(replies.user.field)
    requires replies.refresh.Failed? || !Truthy(replies.refresh.field)
    ensures var a := AccessTokenAttempt(s, creds, replies);
      var rt := replies.user.field.value;
      a.result == Err(Error(if replies.refresh.Failed? then IdTokenAuthFailed + Describe(replies.refresh.failure)
                                                      else NoIdToken)) &&
      a.calls == [AuthUser(creds.email.value, creds.password.value), AuthRefresh(rt)] &&
      a.state == TokenState(s.accessToken, Some(rt), EnvFile.ReplaceKeyLine(s.envContent, rt)) &&
      AccessTokenAttempt(a.state, creds', replies').calls == [AuthRefresh(rt)]
  {
  }

  /** The inputs of one call of `getAccessToken`. */
  datatype Call = Call(creds: Credentials, replies: AuthReplies)

  /** Successive calls of `getAccessToken` from state `s`, one attempt each. */
  function Session(s: TokenState, cs: seq<Call>): (r: seq<Attempt<string>>)
    ensures |r| == |cs|
    ensures |cs| > 0 ==> r[0] == AccessTokenAttempt(s, cs[0].creds, cs[0].replies)
    // each later call runs on the state the previous one left
    ensures forall i :: 0 < i < |cs| ==> r[i] == AccessTokenAttempt(r[i - 1].state, cs[i].creds, cs[i].replies)
    decreases |cs|
  {
    if cs == [] then []
    else
      var a := AccessTokenAttempt(s, cs[0].creds, cs[0].replies);
      var rest := Session(a.state, cs[1..]);
      assert forall i :: 0 < i < |cs| ==> ([a] + rest)[i] == rest[i - 1] && cs[i] == cs[1..][i - 1];
      [a] + rest
  }

  /** Once a token is cached, every call of a session returns it and sends
      nothing. */
  lemma {:induction false} SessionServedFromCache(s: TokenState, cs: seq<Call>)
    requires Truthy(s.accessToken)
    ensures forall i :: 0 <= i < |cs| ==> Session(s, cs)[i] == Attempt(s, Ok(s.accessToken.value), [])
    decreases |cs|
  {
    if cs != [] {
      SessionServedFromCache(s, cs[1..]);
    }
  }

  /** Idempotence: after a call returns a token, every later call of the
      session returns the same token, sends no request and changes nothing. */
  lemma {:induction false} SessionIdempotent(s: TokenState, cs: seq<Call>, i: nat, j: nat)
    requires i < j < |cs|
    requires Session(s, cs)[i].result.Ok?
    ensures Session(s, cs)[j] == Attempt(Session(s, cs)[i].state, Session(s, cs)[i].result, [])
    decreases i
  {
    var a := AccessTokenAttempt(s, cs[0].creds, cs[0].replies);
    assert Session(s, cs) == [a] + Session(a.state, cs[1..]);
    if i == 0 {
      SessionServedFromCache(a.state, cs[1..]);
    } else {
      SessionIdempotent(a.state, cs[1..], i - 1, j - 1);
    }
  }

  /** A refresh token once held is never replaced and never rewritten to the
      env file, and `auth_user` is never asked again. */
  lemma {:induction false} SessionKeepsRefreshToken(s: TokenState, cs: seq<Call>)
    requires Truthy(s.refreshToken)
    ensures forall i :: 0 <= i < |cs| ==>
      Session(s, cs)[i].state.refreshToken == s.refreshToken &&
      Session(s, cs)[i].state.envContent == s.envContent &&
      forall k :: 0 <= k < |Session(s, cs)[i].calls| ==> !Session(s, cs)[i].calls[k].AuthUser?
    decreases |cs|
  {
    if cs != [] {
      var a := AccessTokenAttempt(s, cs[0].creds, cs[0].replies);
      assert Session(s, cs) == [a] + Session(a.state, cs[1..]);
      SessionKeepsRefreshToken(a.state, cs[1..]);
    }
  }

  /** The client never stores an empty token: the start-up state and every
      call keep both stored tokens truthy. */
  lemma {:induction false} SessionKeepsTokensTruthy(s: TokenState, cs: seq<Call>)
    requires StoredTokensTruthy(s)
    ensures forall i :: 0 <= i < |cs| ==> StoredTokensTruthy(Session(s, cs)[i].state)
    decreases |cs|
  {
    if cs != [] {
      var a := AccessTokenAttempt(s, cs[0].creds, cs[0].replies);
      assert Session(s, cs) == [a] + Session(a.state, cs[1..]);
      SessionKeepsTokensTruthy(a.state, cs[1..]);
    }
  }

  /** A token failure reaches the caller of a fetch as it was thrown, and no
      data request is sent. */
  lemma FetchPassesTokenErrorThrough(s: TokenState, date: string, creds: Credentials, auth: AuthReplies,
                                     prices: Reply<seq<StockRecord>>, dividends: Reply<seq<DividendRecord>>)
    requires AccessTokenAttempt(s, creds, auth).result.Err?
    ensures var t := AccessTokenAttempt(s, creds, auth);
      StockDataAttempt(s, date, creds, auth, prices) == Attempt(t.state, Err(t.result.error), t.calls) &&
      DividendDataAttempt(s, date, creds, auth, dividends) == Attempt(t.state, Err(t.result.error), t.calls)
  {
  }

  /** With a token, a fetch sends one data request carrying that token as its
      bearer and returns the list unchanged, or fails with the format error
      when the list is missing, or with the wrapped HTTP error. */
  lemma FetchWithToken(s: TokenState, date: string, creds: Credentials, auth: AuthReplies,
                       prices: Reply<seq<StockRecord>>)
    requires AccessTokenAttempt(s, creds, auth).result.Ok?
    ensures var t := AccessTokenAttempt(s, creds, auth);
      var a := StockDataAttempt(s, date, creds, auth, prices);
      a.calls == t.calls + [GetPrices(date, t.result.value)] &&
      (prices.Received? && prices.field.Some? ==> a.result == Ok(prices.field.value)) &&
      (prices == Received(None) ==> a.result == Err(Error(PricesFormatError))) &&
      (prices.Failed? ==> a.result == Err(Error(PricesFetchFailed + Describe(prices.failure))))
  {
  }

  /** The module's state and its functions, with the state changed in place
      as the source changes its module variables and its env file. */
  class TokenClient {
    var accessToken: Option<string>
    var refreshToken: Option<string>
    var envContent: string

    function State(): TokenState
      reads this
    {
      TokenState(accessToken, refreshToken, envContent)
    }

    /** Module load: no access token; the refresh token from the environment. */
    constructor (envRefreshToken: Option<string>, envFile: string)
      ensures State() == Initial(envRefreshToken, envFile)
      ensures StoredTokensTruthy(State())
    {
      accessToken := None;
      refreshToken := if Truthy(envRefreshToken) then envRefreshToken else None;
      envContent := envFile;
    }

    /** `saveRefreshToken(token)`: rewrite the key's line of the env file. */
    method SaveRefreshToken(token: string)
      modifies this`envContent
      ensures envContent == EnvFile.ReplaceKeyLine(old(envContent), token)
    {
      envContent := EnvFile.ReplaceKeyLine(envContent, token);
    }

    /** `getAccessToken()` */
    method GetAccessToken(creds: Credentials, replies: AuthReplies) returns (r: Result<string, Thrown>, calls: seq<Request>)
      modifies this
      ensures Attempt(State(), r, calls) == AccessTokenAttempt(old(State()), creds, replies)
    {
      if Truthy(accessToken) {
        return Ok(accessToken.value), [];
      }
      calls := [];
      if !Truthy(refreshToken) {
        if !HasCredentials(creds) {
          return Err(Error(CredentialsNotSet)), [];
        }
        calls := [AuthUser(creds.email.value, creds.password.value)];
        match replies.user {
          case Failed(f) =>
            return Err(Error(RefreshTokenAuthFailed + Describe(f))), calls;
          case Received(t) =>
            if !Truthy(t) {
              return Err(Error(NoRefreshToken)), calls;
            }
            refreshToken := t;
            SaveRefreshToken(t.value);
        }
      }
      calls := calls + [AuthRefresh(refreshToken.value)];
      match replies.refresh {
        case Failed(f) =>
          r := Err(Error(IdTokenAuthFailed + Describe(f)));
        case Received(t) =>
          if !Truthy(t) {
            r := Err(Error(NoIdToken));
          } else {
            accessToken := t;
            r := Ok(t.value);
          }
      }
    }

    /** `fetchStockData(date)` */
    method FetchStockData(date: string, creds: Credentials, auth: AuthReplies, reply: Reply<seq<StockRecord>>)
      returns (r: Result<seq<StockRecord>, Thrown>, calls: seq<Request>)
      modifies this
      ensures Attempt(State(), r, calls) == StockDataAttempt(old(State()), date, creds, auth, reply)
    {
      var token;
      token, calls := GetAccessToken(creds, auth);
      if token.Err? {
        return Err(token.error), calls;
      }
      calls := calls + [GetPrices(date, token.value)];
      r := CheckData(reply, PricesFormatError, PricesFetchFailed);
    }

    /** `fetchDividendData(date)` */
    method FetchDividendData(date: string, creds: Credentials, auth: AuthReplies, reply: Reply<seq<DividendRecord>>)
      returns (r: Result<seq<DividendRecord>, Thrown>, calls: seq<Request>)
      modifies this
      ensures Attempt(State(), r, calls) == DividendDataAttempt(old(State()), date, creds, auth, reply)
    {
      var token;
      token, calls := GetAccessToken(creds, auth);
      if token.Err? {
        return Err(token.error), calls;
      }
      calls := calls + [GetDividends(date, token.value)];
      r := CheckData(reply, DividendsFormatError, DividendsFetchFailed);
    }
  }
}
