# Dividend-yield report: a Dafny model

The stock-report dashboard lets a user pick a date. It fetches that day's
stock prices and dividends from the J-Quants API. It joins them by security
code, ranks the securities by dividend yield, and shows or exports the top 100.
This project models the three parts of it that hold logic:

- `JQuantsApi` and `EnvFile` model the API client of `utils/jquantsApi.ts`.
  It caches an access token and holds a refresh token. `getAccessToken` runs
  a small state machine over the two: a cache hit, then the credential check,
  then `auth_user` (whose refresh token is saved into `.env.local`), then
  `auth_refresh`. `fetchStockData` and `fetchDividendData` check the shape of
  the reply. The module variables are the fields of the class `TokenClient`,
  and its methods change them in place. Each method is proved against a pure
  function of the old state: `AccessTokenAttempt`, `StockDataAttempt` or
  `DividendDataAttempt`. The lemmas are stated over those functions and over
  `Session`, a sequence of calls.
- `DividendYieldRoute` models `GET /api/dividend-yield` in
  `app/api/dividend-yield/route.ts`. It covers the date check (400), the empty
  check (404), the first-match join by code, the stable sort by descending
  yield, the top-100 cut, and the mapping of thrown values to 500.
- `Page` models the pure parts of `app/page.tsx`: the classification of the
  reply in `queryFn`, the CSV text of `handleExport`, and the download's file
  name.

The network is never called. Every upstream reply is an input
(`Reply`: an HTTP failure, or a body whose field may be missing). The client
returns the list of requests it would have sent, so "no network call" is
`calls == []`. The env file is a string field. The credentials are optional
inputs. The yield that the source computes in floating point and prints with
`toFixed(2)` is a parameter `yieldOf` that gives hundredths of a percent.
The ranking properties hold for every such function.

JavaScript details the model keeps:
- An empty string is falsy. So an empty token, e-mail, password, `date` or
  `error` field counts as absent.
- The env-file pattern has no anchor, so it matches the key anywhere in the
  file, even inside a comment or a longer name. Its `.*` stops at `\n`, `\r`,
  U+2028 or U+2029.
- A replacement string is expanded for `$$`, `$&`, `` $` `` and `$'`
  (`DollarPatternExpands`).
- An HTTP error's text is the body's `message`, or axios's own message when
  the body has none.

Behaviour of the code worth knowing:
- The join produces one entry per price record, including records with no
  dividend record, so the response holds min(100, number of price records)
  entries.
- An empty `date` is rejected the same way as a missing one.
- The token exchange has two steps, `auth_user` and then `auth_refresh`.
- A refresh that fails after `auth_user` has succeeded is not retried with the
  credentials. The next call goes straight to `auth_refresh`
  (`RefreshFailureKeepsRefreshToken`). Once a refresh token is held,
  `auth_user` is never sent again (`SessionKeepsRefreshToken`).
- `dividendAmount` is 0 for a stock with no dividend record. A matched record
  whose `DividendPerShare` is 0 also gives 0.

## Model

| member | source | states |
|---|---|---|
| `EnvFile.FindKey` | utils/jquantsApi.ts:20-23 | The result is the leftmost position at or after `from` where `JQUANTS_REFRESH_TOKEN=` occurs. `None` means the key occurs nowhere from `from` on. |
| `EnvFile.LineEnd` | utils/jquantsApi.ts:21 | The greedy `.*` stops at the first JavaScript line terminator after `from`, or at the end of the text. Everything in between is free of terminators. |
| `EnvFile.Substitute` | utils/jquantsApi.ts:22 | JavaScript's expansion of the replacement string. A replacement without `$` is inserted literally. |
| `EnvFile.ReplaceKeyLine` | utils/jquantsApi.ts:20-23 | The `replace` call. Without the key, the content is written back unchanged. Otherwise the text before the first occurrence is kept. `ReplaceKeyLineSpec` and `PersistRoundTrip` state the rest. |
| `EnvFile.ReadKey` | utils/jquantsApi.ts:20-21 | The value the same pattern matches: `None` exactly when the key occurs nowhere. Otherwise the value is the text after the first occurrence of the key, up to the next line terminator or the end of the text. |
| `EnvFile.ReplaceKeyLineSpec` | utils/jquantsApi.ts:19-24 | For a `$`-free token, only the first key occurrence up to its line end becomes `JQUANTS_REFRESH_TOKEN=<token>`. Text before it and text from the line terminator on are unchanged. With no occurrence, the content is written back unchanged. |
| `EnvFile.PersistRoundTrip` | utils/jquantsApi.ts:14-25 | If the file holds the key and the token has no `$` and no line break, reading the key back from the rewritten file gives exactly the token. |
| `EnvFile.MissingKeyNotPersisted` | utils/jquantsApi.ts:19-24 | If the file lacks the key, the content is unchanged and no token can be read back, so the token is not persisted. |
| `EnvFile.DollarPatternExpands` | utils/jquantsApi.ts:20-23 | A token `$&` is not written literally. The matched text is inserted in its place. |
| `JQuantsApi.Describe` | utils/jquantsApi.ts:62 | `error.response?.data?.message \|\| error.message`: the body's message when it is a non-empty string, else axios's own message. The same expression appears at lines 92, 119 and 146. |
| `JQuantsApi.Initial` | utils/jquantsApi.ts:10-11 | At load, no access token is cached. The refresh token is the environment's value when that is non-empty, and null otherwise. |
| `JQuantsApi.RefreshExchange` | utils/jquantsApi.ts:69-96 | Exactly one `auth_refresh` is sent, carrying the held refresh token. It succeeds exactly when the reply has a non-empty `idToken`, which is then cached and returned. On failure the state is unchanged. An HTTP failure throws "Authentication failed (ID token): " plus the upstream message. A reply without `idToken` throws "Failed to obtain ID token from J-Quants API", unwrapped. |
| `JQuantsApi.AccessTokenAttempt` | utils/jquantsApi.ts:27-97 | A cache hit returns the cached token. Any other token returned is the `idToken` of the `auth_refresh` reply. With a refresh token held and no cached token, the call is exactly the `auth_refresh` exchange. After a successful `auth_user`, the call is the `auth_refresh` exchange on the new, already persisted refresh token, after the `auth_user` request. A returned token is the one cached, and a failure leaves the cache as it was. A held refresh token is kept. A new refresh token is the one `auth_user` issued and is persisted. The network is used exactly when the cache misses and a token can be requested. `auth_user` is sent exactly when no refresh token is held, is sent first, and carries the credentials. Every other request is an `auth_refresh` with the refresh token now held. |
| `JQuantsApi.CheckData` | utils/jquantsApi.ts:102-123 | A present list is returned unchanged, even an empty one. A missing or non-array list fails with the format message and is not wrapped. An HTTP failure is wrapped with the fetch prefix and the upstream message. |
| `JQuantsApi.StockDataAttempt` | utils/jquantsApi.ts:99-124 | A token failure is passed on as it is, with no data request. With a token, one `/prices` request carries it as bearer, and the reply is checked by `CheckData`. |
| `JQuantsApi.DividendDataAttempt` | utils/jquantsApi.ts:126-151 | The same for `/dividends`, with the dividend messages. |
| `JQuantsApi.CachedTokenReturned` | utils/jquantsApi.ts:28 | A cached token is returned unchanged, with no request and no change of state. |
| `JQuantsApi.MissingCredentialsFail` | utils/jquantsApi.ts:30-37 | With no tokens and an e-mail or password unset, the call fails with "J-Quants API credentials are not set", sends nothing and changes nothing. |
| `JQuantsApi.StoredRefreshTokenSuccess` | utils/jquantsApi.ts:69-88 | With a refresh token loaded from the environment, one `auth_refresh` is sent with it. The `idToken` is cached and returned. The refresh token and the env file are untouched. |
| `JQuantsApi.StoredRefreshTokenFails` | utils/jquantsApi.ts:69-96 | With a refresh token held and no cached token, a failed `auth_refresh` throws the ID-token error (wrapped for an HTTP failure, unwrapped for a missing `idToken`). The state is unchanged and only that request is sent. |
| `JQuantsApi.FirstTimeSuccess` | utils/jquantsApi.ts:39-88 | On the first-time path, `refreshToken` becomes the `auth_user` token and is persisted. `auth_refresh` is sent that token. `accessToken` becomes the `idToken`, which is returned. |
| `JQuantsApi.CredentialExchangeFails` | utils/jquantsApi.ts:40-66 | A reply without a refresh token fails with "Failed to obtain refresh token from J-Quants API", unwrapped. An HTTP failure is wrapped as "Authentication failed (refresh token): …". The state is unchanged and `auth_refresh` is not sent. |
| `JQuantsApi.RefreshFailureKeepsRefreshToken` | utils/jquantsApi.ts:53-96 | If `auth_refresh` fails after `auth_user` succeeds, `auth_user` and then `auth_refresh` with the new refresh token were sent. The ID-token error is thrown: wrapped for an HTTP failure, unwrapped for a missing `idToken`. The access token stays null. The new refresh token stays held and persisted. The next call sends only `auth_refresh` with that token. |
| `JQuantsApi.Session` | utils/jquantsApi.ts:10-97 | A session holds one attempt per call. The first attempt is `getAccessToken` on the start state. Each later attempt is `getAccessToken` on the state the previous one left, because the module variables persist between calls. |
| `JQuantsApi.SessionServedFromCache` | utils/jquantsApi.ts:28 | Once a token is cached, every call of a session returns it, sends nothing and changes nothing. |
| `JQuantsApi.SessionIdempotent` | utils/jquantsApi.ts:87-88 | After a call returns a token, every later call returns the same token with no request and no change of state. |
| `JQuantsApi.SessionKeepsRefreshToken` | utils/jquantsApi.ts:30-58 | A held refresh token is never replaced or rewritten to the env file, and `auth_user` is never sent again. |
| `JQuantsApi.SessionKeepsTokensTruthy` | utils/jquantsApi.ts:53-87 | No call ever stores an empty token, so the source's truthiness tests are null tests on stored state. |
| `JQuantsApi.FetchPassesTokenErrorThrough` | utils/jquantsApi.ts:100 | Both fetches pass a token failure on unwrapped, because `getAccessToken` is awaited outside the `try`. |
| `JQuantsApi.FetchWithToken` | utils/jquantsApi.ts:102-123 | With a token, the price fetch sends one request with that bearer token. It returns the list unchanged, or the format error, or the wrapped HTTP error. |
| `JQuantsApi.TokenClient.constructor` | utils/jquantsApi.ts:10-11 | The new client is in the load state, and its stored tokens are non-empty. |
| `JQuantsApi.TokenClient.SaveRefreshToken` | utils/jquantsApi.ts:14-25 | The env content becomes the first-key-line rewrite of the old content. |
| `JQuantsApi.TokenClient.GetAccessToken` | utils/jquantsApi.ts:27-97 | The new fields, the result and the requests are those of `AccessTokenAttempt` on the old fields. |
| `JQuantsApi.TokenClient.FetchStockData` | utils/jquantsApi.ts:99-124 | The new fields, the result and the requests are those of `StockDataAttempt` on the old fields. |
| `JQuantsApi.TokenClient.FetchDividendData` | utils/jquantsApi.ts:126-151 | The new fields, the result and the requests are those of `DividendDataAttempt` on the old fields. |
| `DividendYieldRoute.CombineOneExample` | app/api/dividend-yield/route.ts:23-35 | Under the exact yield, a stock closing at 2500 whose first record of its code pays 50 joins into an entry with yield 2.00 and amount 50. A later record of the same code (paying 80) is ignored. |
| `DividendYieldRoute.FirstMatch` | app/api/dividend-yield/route.ts:24 | `find` stops at the first dividend record with the stock's code. `None` means no record has it. |
| `DividendYieldRoute.Find` | app/api/dividend-yield/route.ts:24 | The record found has the stock's code and is one of the records. `None` means no record has the code. `CombineSpec` states that it is the first. |
| `DividendYieldRoute.CombineOne` | app/api/dividend-yield/route.ts:24-34 | Code, name, market, price and market cap are copied from the stock. The yield is 0 without a record of the code or without a positive close. The amount is 0 without a record. |
| `DividendYieldRoute.Combine` | app/api/dividend-yield/route.ts:23-35 | One entry per stock, with the stock's code, in the stocks' order. `CombineSpec` gives every field. |
| `DividendYieldRoute.CombineSpec` | app/api/dividend-yield/route.ts:23-35 | There is one entry per stock, in order, copying code, name, market, price and market cap. With no record of the code, yield and amount are 0. Otherwise the first record gives the amount, and gives the yield when the close is positive (0 when it is not). |
| `DividendYieldRoute.CombineIgnoresLaterDuplicates` | app/api/dividend-yield/route.ts:24 | Appending dividend records whose codes already occur changes no entry. |
| `DividendYieldRoute.SortByYield` | app/api/dividend-yield/route.ts:40 | The sort keeps the length. `SortByYieldSpec` and `SortByYieldStable` give order, contents and stability. |
| `DividendYieldRoute.SortByYieldSpec` | app/api/dividend-yield/route.ts:40 | The sort gives a non-increasing permutation of the combined list. |
| `DividendYieldRoute.SortByYieldStable` | app/api/dividend-yield/route.ts:40 | Entries of equal yield keep their input order. |
| `DividendYieldRoute.Top` | app/api/dividend-yield/route.ts:41 | `.slice(0, 100)`: the first min(100, n) entries of the list. |
| `DividendYieldRoute.Ranked` | app/api/dividend-yield/route.ts:39-41 | The list returned on success has min(100, number of stocks) entries. `RankedSpec` states which ones. |
| `DividendYieldRoute.RankedSpec` | app/api/dividend-yield/route.ts:39-41 | The output has min(100, number of stocks) entries and is sorted by yield. It is a sub-multiset of the combined list, and no entry left out has a larger yield than one kept. For each yield, the kept entries of that yield are a prefix of that yield's entries in input order. |
| `DividendYieldRoute.ServerError` | app/api/dividend-yield/route.ts:46-51 | Status 500. The body is a thrown `Error`'s message, or "An unexpected error occurred" for any other thrown value. |
| `DividendYieldRoute.Respond` | app/api/dividend-yield/route.ts:12-52 | The status is 200, 404 or 500. It is 200 exactly when both fetches succeed with non-empty lists. `RespondSpec` gives the bodies. |
| `DividendYieldRoute.RespondSpec` | app/api/dividend-yield/route.ts:14-45 | A fetch failure (prices first) gives 500 with its message. With both fetches successful, the status is 404 ("No data available for the selected date") exactly when a list is empty. Otherwise the status is 200 with the non-empty ranked list. |
| `DividendYieldRoute.Get` | app/api/dividend-yield/route.ts:4-52 | A missing or empty `date` gives 400 "Date parameter is required" with no request and no change to the client. Otherwise the price fetch and then the dividend fetch run, and the response is `Respond` of their results. |
| `Page.QueryFn` | app/page.tsx:29-45 | An array reply is the data, unchanged, and nothing else is. A 2xx object with a non-empty `error` fails with that message. Any other 2xx body fails with "Unexpected data format received from API". An HTTP error fails with "API error: " followed by the body's `error`, or by axios's own message when that is absent or empty. |
| `Page.Join` | app/page.tsx:68-69 | `Array.prototype.join`: the first part comes first. `JoinCount` counts the separators and `SplitJoin` undoes it. |
| `Page.JoinCount` | app/page.tsx:68-69 | The joined text holds the separators inside the parts plus one between each two parts. |
| `Page.SplitJoin` | app/page.tsx:68-69 | Splitting on the separator undoes `join` when no part holds the separator. |
| `Page.Csv` | app/page.tsx:56-69 | The CSV text holds one newline per data row, beside any inside the cells. `CsvLines` reads it back line by line. |
| `Page.CsvLines` | app/page.tsx:56-69 | With no newline in a cell, the CSV text reads back as the header line and then one line per item, in order: `data.length + 1` lines with no trailing newline. |
| `Page.CsvFields` | app/page.tsx:57-68 | With no comma in a cell, each line reads back as its seven cells, and the header as the seven fixed headings. |
| `Page.CommaInCellAddsColumn` | app/page.tsx:58-68 | There is no quoting, so a row whose cells hold `m` commas reads back as `7 + m` fields. |
| `Page.Export` | app/page.tsx:54-83 | Export produces a download exactly when `data` is present, even an empty list. The download is the CSV of the rows under `FileName(date)`. |
| `Page.FileName` | app/page.tsx:76 | The file name is `dividend_yield_report_`, then the date, then `.csv`. The date is recovered between the two. |
| `Page.Transport` | app/page.tsx:31-41 | How axios delivers a route response: a 2xx status is delivered, with an entry list as an array of the same length. Any other status is an axios error carrying the status message and the body's `error`. |
| `Page.RouteRepliesReachQuery` | app/page.tsx:31-44 | A route reply with status 200 reaches the page as the ranked list, row for row. A 400, 404 or 500 is shown as "API error: " plus the route's message. The object-with-error branch is never taken for this route. |

## Left out

- Network I/O through axios, and the request-logging interceptor: every reply is an input, and every request is recorded in `calls`.
- `console.log` and `console.error`: they have no effect on results.
- File-system failures in `saveRefreshToken`, such as a missing `.env.local`: the env file is a string that is always readable and writable.
- The `process.env` assignment in `saveRefreshToken`: nothing in the core reads that variable again after load.
- Upstream values of the wrong JSON type (a numeric token, a non-string `Code`): fields are typed, and a non-array list is the same as a missing one.
- Concurrency of `Promise.all`: the two fetches run in order, price fetch first. When both fail, the price error is the one reported, and the second fetch finds any token the first cached. The race where both fetches authenticate at first use is not modelled.
- IEEE division, `toFixed(2)` and `Number(...)`: the yield is the parameter `yieldOf` in hundredths, and `ExactYield` shows the exact-arithmetic value.
- Number-to-string rendering in `row.join(",")`: a CSV row holds each cell's rendered text.
- `NextResponse` JSON serialisation, URL parsing, and the Bearer header syntax of section 2.1 of RFC 6750.
- The React state (`useState`, `useQuery`, `refetch`), JSX rendering, and the Blob and link download of `handleExport`, which are user-interface code. app/layout.tsx is not part of this model.
- The load of `.env.local` into `process.env` at the next start is done by the framework and is not part of this model. `ReadKey` reads the file with the same unanchored pattern the rewrite uses. So when the key first occurs inside a comment or a longer name (such as `OLD_JQUANTS_REFRESH_TOKEN=`), `PersistRoundTrip` still reads the token back, while the framework's load would keep the old value.
- `EnvFile.ReplaceKeyLineSpec`: the literal-token statement assumes the token has no `$`. Other tokens are covered by `Substitute` and shown by `DollarPatternExpands`.
