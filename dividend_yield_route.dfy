/** The `GET /api/dividend-yield?date=…` handler of
    app/api/dividend-yield/route.ts: check the date, fetch prices and
    dividends, join each price record with the first dividend record of the
    same code, rank by yield with a stable descending sort, keep the first
    100, and map every failure to an HTTP status.

    The yield (`DividendPerShare / Close * 100` in floating point, printed
    by `toFixed(2)` and read back by `Number` for the sort) is abstracted as
    a parameter `yieldOf` giving hundredths of a percent; every property here
    holds for every such function. */
module DividendYieldRoute {
  import opened Wrappers
  import opened JQuantsApi

  const DateRequired := "Date parameter is required"
  const NoData := "No data available for the selected date"
  const Unexpected := "An unexpected error occurred"
  const TopCount := 100

  /** `yieldOf(dividendPerShare, close)`: the yield in hundredths of a percent. */
  type YieldFn = (real, real) -> int

  /** One entry of the response; `dividendYield` is in hundredths. */
  datatype YieldEntry = YieldEntry(
    code: string, name: string, market: string, price: real,
    dividendYield: int, dividendAmount: real, marketCap: real)

  datatype Body = Entries(entries: seq<YieldEntry>) | ErrorBody(error: string)

  datatype Response = Response(status: int, body: Body)

  /** The yield in exact arithmetic, rounded as `toFixed(2)` rounds (half away
      from zero); the floating-point division of the source may differ from
      it in the last digit. */
  function ExactYield(dividendPerShare: real, close: real): int {
    if close == 0.0 then 0
    else
      var x := dividendPerShare * 100.0 / close * 100.0;
      if x >= 0.0 then (x + 0.5).Floor else -((-x + 0.5).Floor)
  }

  /** The index `dividendData.find` stops at: the first record with the code. */
  function FirstMatch(ds: seq<DividendRecord>, code: string): (r: Option<nat>)
    ensures r.Some? ==> r.value < |ds| && ds[r.value].code == code
    ensures r.Some? ==> forall j :: 0 <= j < r.value ==> ds[j].code != code
    ensures r.None? ==> forall j :: 0 <= j < |ds| ==> ds[j].code != code
  {
    if ds == [] then None
    else if ds[0].code == code then Some(0)
    else match FirstMatch(ds[1..], code)
      case None => None
      case Some(i) => Some(i + 1)
  }

  /** `dividendData.find((div) => div.Code === code)` */
  function Find(ds: seq<DividendRecord>, code: string): (r: Option<DividendRecord>)
    ensures r.Some? ==> r.value in ds && r.value.code == code
    ensures r.None? <==> forall j :: 0 <= j < |ds| ==> ds[j].code != code
  {
    match FirstMatch(ds, code)
    case None => None
    case Some(i) => Some(ds[i])
  }

  /** The entry the `map` callback builds for one stock. */
  function CombineOne(stock: StockRecord, ds: seq<DividendRecord>, yieldOf: YieldFn): (e: YieldEntry)
    ensures e.code == stock.code && e.name == stock.companyName && e.market == stock.market &&
            e.price == stock.close && e.marketCap == stock.marketCapitalization
    // without a record of the code, or without a positive close, the yield is 0
    ensures (Find(ds, stock.code).None? || stock.close <= 0.0) ==> e.dividendYield == 0
    ensures Find(ds, stock.code).None? ==> e.dividendAmount == 0.0
  {
    var dividend := Find(ds, stock.code);
    YieldEntry(
      stock.code, stock.companyName, stock.market, stock.close,
      if dividend.Some? && stock.close > 0.0 then yieldOf(dividend.value.dividendPerShare, stock.close) else 0,
      if dividend.Some? then dividend.value.dividendPerShare else 0.0,
      stock.marketCapitalization)
  }

  /** `stockData.map(...)`: the combined list, one entry per stock. */
  function Combine(stocks: seq<StockRecord>, ds: seq<DividendRecord>, yieldOf: YieldFn): (c: seq<YieldEntry>)
    ensures |c| == |stocks|
    ensures forall i :: 0 <= i < |c| ==> c[i].code == stocks[i].code
  {
    seq(|stocks|, i requires 0 <= i < |stocks| => CombineOne(stocks[i], ds, yieldOf))
  }

  /** A stock closing at 2500 whose first dividend record of its code pays
      50 (a later record of the code is ignored) joins, under the exact
      yield, into an entry showing "2.00" and an amount of 50. */
  lemma CombineOneExample(name: string, market: string, cap: real, others: seq<DividendRecord>)
    ensures var e := CombineOne(StockRecord("7203", name, market, 2500.0, cap),
                                [DividendRecord("7203", 50.0), DividendRecord("7203", 80.0)] + others, ExactYield);
      e == YieldEntry("7203", name, market, 2500.0, 200, 50.0, cap)
  {
    var ds := [DividendRecord("7203", 50.0), DividendRecord("7203", 80.0)] + others;
    assert ds[0].code == "7203";
    assert 50.0 * 100.0 / 2500.0 * 100.0 == 200.0;
  }

  /** The join: one entry per stock in the stocks' order, copying the stock's
      fields; a stock with no dividend record of its code gets yield 0 and
      amount 0; otherwise the FIRST record of its code gives the amount, and
      the yield when the close is positive (0 when it is not). */
  lemma CombineSpec(stocks: seq<StockRecord>, ds: seq<DividendRecord>, yieldOf: YieldFn)
    ensures var c := Combine(stocks, ds, yieldOf);
      |c| == |stocks| &&
      (forall i :: 0 <= i < |c| ==>
        c[i].code == stocks[i].code && c[i].name == stocks[i].companyName &&
        c[i].market == stocks[i].market && c[i].price == stocks[i].close &&
        c[i].marketCap == stocks[i].marketCapitalization) &&
      (forall i :: 0 <= i < |c| && (forall j :: 0 <= j < |ds| ==> ds[j].code != stocks[i].code) ==>
        c[i].dividendYield == 0 && c[i].dividendAmount == 0.0) &&
      (forall i, k ::
        0 <= i < |c| && 0 <= k < |ds| && ds[k].code == stocks[i].code &&
        (forall j :: 0 <= j < k ==> ds[j].code != stocks[i].code)
        ==>
        c[i].dividendAmount == ds[k].dividendPerShare &&
        c[i].dividendYield == (if stocks[i].close > 0.0 then yieldOf(ds[k].dividendPerShare, stocks[i].close) else 0))
  {
    var c := Combine(stocks, ds, yieldOf);
    forall i, k | 0 <= i < |c| && 0 <= k < |ds| && ds[k].code == stocks[i].code &&
      (forall j :: 0 <= j < k ==> ds[j].code != stocks[i].code)
      ensures FirstMatch(ds, stocks[i].code) == Some(k)
    {
      FirstMatchAt(ds, stocks[i].code, k);
    }
  }

  /** The first record of the code is the one found. */
  lemma FirstMatchAt(ds: seq<DividendRecord>, code: string, k: nat)
    requires k < |ds| && ds[k].code == code && forall j :: 0 <= j < k ==> ds[j].code != code
    ensures FirstMatch(ds, code) == Some(k)
  {
  }

  /** Appending records of a code the list already has changes no match. */
  lemma {:induction false} FirstMatchIgnoresLaterDuplicates(ds: seq<DividendRecord>, extra: seq<DividendRecord>, code: string)
    requires (exists j :: 0 <= j < |extra| && extra[j].code == code) ==> exists j :: 0 <= j < |ds| && ds[j].code == code
    ensures FirstMatch(ds + extra, code) == FirstMatch(ds, code)
  {
    if ds == [] {
      assert ds + extra == extra;
    } else {
      assert (ds + extra)[1..] == ds[1..] + extra;
      if ds[0].code != code {
        if exists j :: 0 <= j < |extra| && extra[j].code == code {
          var j :| 0 <= j < |ds| && ds[j].code == code;
          assert ds[1..][j - 1].code == code;
        }
        FirstMatchIgnoresLaterDuplicates(ds[1..], extra, code);
      }
    }
  }

  /** Duplicate codes: dividend records whose code an earlier record already
      has are ignored by the join. */
  lemma CombineIgnoresLaterDuplicates(stocks: seq<StockRecord>, ds: seq<DividendRecord>, extra: seq<DividendRecord>,
                                      yieldOf: YieldFn)
    requires forall e :: 0 <= e < |extra| ==> exists j :: 0 <= j < |ds| && ds[j].code == extra[e].code
    ensures Combine(stocks, ds + extra, yieldOf) == Combine(stocks, ds, yieldOf)
  {
    forall i | 0 <= i < |stocks|
      ensures FirstMatch(ds + extra, stocks[i].code) == FirstMatch(ds, stocks[i].code)
    {
      FirstMatchIgnoresLaterDuplicates(ds, extra, stocks[i].code);
    }
    forall i | 0 <= i < |stocks|
      ensures Find(ds + extra, stocks[i].code) == Find(ds, stocks[i].code)
    {
      var m := FirstMatch(ds, stocks[i].code);
      if m.Some? {
        assert (ds + extra)[m.value] == ds[m.value];
      }
    }
  }

  predicate SortedByYield(s: seq<YieldEntry>) {
    forall i, j :: 0 <= i < j < |s| ==> s[j].dividendYield <= s[i].dividendYield
  }

  /** Insert `x` before the first entry whose yield is not larger. */
  function InsertByYield(x: YieldEntry, s: seq<YieldEntry>): (r: seq<YieldEntry>)
    ensures |r| == |s| + 1
  {
    if s == [] || s[0].dividendYield <= x.dividendYield then [x] + s
    else [s[0]] + InsertByYield(x, s[1..])
  }

  /** `combinedData.sort((a, b) => Number(b.dividendYield) - Number(a.dividendYield))`:
      JavaScript's sort is stable, and so is this insertion sort. */
  function SortByYield(s: seq<YieldEntry>): (r: seq<YieldEntry>)
    ensures |r| == |s|
  {
    if s == [] then [] else InsertByYield(s[0], SortByYield(s[1..]))
  }

  /** The entries of yield `k`, in order. */
  function WithYield(s: seq<YieldEntry>, k: int): seq<YieldEntry> {
    if s == [] then [] else (if s[0].dividendYield == k then [s[0]] else []) + WithYield(s[1..], k)
  }

  lemma {:induction false} InsertByYieldPerm(x: YieldEntry, s: seq<YieldEntry>)
    ensures multiset(InsertByYield(x, s)) == multiset(s) + multiset{x}
  {
    if s != [] && s[0].dividendYield > x.dividendYield {
      InsertByYieldPerm(x, s[1..]);
      assert s == [s[0]] + s[1..];
    }
  }

  /** Every entry of the result is `x` or an entry of `s`. */
  lemma {:induction false} InsertByYieldMembers(x: YieldEntry, s: seq<YieldEntry>)
    ensures forall j :: 0 <= j < |InsertByYield(x, s)| ==> InsertByYield(x, s)[j] == x || InsertByYield(x, s)[j] in s
  {
    if s != [] && s[0].dividendYield > x.dividendYield {
      InsertByYieldMembers(x, s[1..]);
      var r := InsertByYield(x, s);
      forall j | 0 <= j < |r| ensures r[j] == x || r[j] in s {
        if j > 0 {
          assert r[j] == InsertByYield(x, s[1..])[j - 1];
        }
      }
    }
  }

  lemma {:induction false} InsertByYieldSorted(x: YieldEntry, s: seq<YieldEntry>)
    requires SortedByYield(s)
    ensures SortedByYield(InsertByYield(x, s))
  {
    if s == [] || s[0].dividendYield <= x.dividendYield {
      var r := [x] + s;
      forall i, j | 0 <= i < j < |r| ensures r[j].dividendYield <= r[i].dividendYield {
        assert r[j] == s[j - 1];
        if i > 0 { assert r[i] == s[i - 1]; }
      }
    } else {
      var t := InsertByYield(x, s[1..]);
      InsertByYieldSorted(x, s[1..]);
      InsertByYieldMembers(x, s[1..]);
      forall j | 0 <= j < |t| ensures t[j].dividendYield <= s[0].dividendYield {
        if t[j] != x {
          var m :| 0 <= m < |s[1..]| && s[1..][m] == t[j];
          assert s[m + 1] == t[j];
        }
      }
      var r := [s[0]] + t;
      forall i, j | 0 <= i < j < |r| ensures r[j].dividendYield <= r[i].dividendYield {
        assert r[j] == t[j - 1];
        if i > 0 { assert r[i] == t[i - 1]; }
      }
    }
  }

  lemma InsertByYieldSpec(x: YieldEntry, s: seq<YieldEntry>)
    requires SortedByYield(s)
    ensures SortedByYield(InsertByYield(x, s))
    ensures multiset(InsertByYield(x, s)) == multiset(s) + multiset{x}
  {
    InsertByYieldSorted(x, s);
    InsertByYieldPerm(x, s);
  }

  /** The sort yields a non-increasing permutation of its input. */
  lemma {:induction false} SortByYieldSpec(s: seq<YieldEntry>)
    ensures SortedByYield(SortByYield(s))
    ensures multiset(SortByYield(s)) == multiset(s)
  {
    if s != [] {
      SortByYieldSpec(s[1..]);
      InsertByYieldSpec(s[0], SortByYield(s[1..]));
      assert s == [s[0]] + s[1..];
    }
  }

  lemma {:induction false} InsertByYieldStable(x: YieldEntry, s: seq<YieldEntry>, k: int)
    ensures WithYield(InsertByYield(x, s), k) == (if x.dividendYield == k then [x] else []) + WithYield(s, k)
  {
    if s == [] || s[0].dividendYield <= x.dividendYield {
      WithYieldCons(x, s, k);
    } else {
      var t := InsertByYield(x, s[1..]);
      InsertByYieldStable(x, s[1..], k);
      WithYieldCons(s[0], t, k);
      WithYieldCons(s[0], s[1..], k);
      assert [s[0]] + s[1..] == s;
      if s[0].dividendYield == k {
        assert x.dividendYield != k;
      }
    }
  }

  lemma WithYieldCons(h: YieldEntry, t: seq<YieldEntry>, k: int)
    ensures WithYield([h] + t, k) == (if h.dividendYield == k then [h] else []) + WithYield(t, k)
  {
    assert ([h] + t)[1..] == t;
  }

  /** Stability: entries of equal yield keep their input order. */
  lemma {:induction false} SortByYieldStable(s: seq<YieldEntry>, k: int)
    ensures WithYield(SortByYield(s), k) == WithYield(s, k)
  {
    if s != [] {
      SortByYieldStable(s[1..], k);
      InsertByYieldStable(s[0], SortByYield(s[1..]), k);
    }
  }

  lemma {:induction false} WithYieldAppend(a: seq<YieldEntry>, b: seq<YieldEntry>, k: int)
    ensures WithYield(a + b, k) == WithYield(a, k) + WithYield(b, k)
  {
    if a != [] {
      assert (a + b)[1..] == a[1..] + b;
      WithYieldAppend(a[1..], b, k);
    } else {
      assert a + b == b;
    }
  }

  /** `.slice(0, 100)` */
  function Top(s: seq<YieldEntry>): (r: seq<YieldEntry>)
    ensures |r| == if |s| < TopCount then |s| else TopCount
    ensures r == s[..|r|]
  {
    if |s| <= TopCount then s else s[..TopCount]
  }

  /** The list the handler returns on success. */
  function Ranked(stocks: seq<StockRecord>, ds: seq<DividendRecord>, yieldOf: YieldFn): (r: seq<YieldEntry>)
    ensures |r| == if |stocks| < TopCount then |stocks| else TopCount
  {
    Top(SortByYield(Combine(stocks, ds, yieldOf)))
  }

  /** The response holds min(100, number of stocks) entries, in
      non-increasing yield, drawn from the combined list, and no entry left
      out has a larger yield than one kept; entries of equal yield appear in
      their input order, as a prefix of that yield's entries. */
  lemma RankedSpec(stocks: seq<StockRecord>, ds: seq<DividendRecord>, yieldOf: YieldFn)
    ensures var c := Combine(stocks, ds, yieldOf);
      var r := Ranked(stocks, ds, yieldOf);
      |r| == (if |stocks| < TopCount then |stocks| else TopCount) &&
      SortedByYield(r) &&
      multiset(r) <= multiset(c) &&
      (forall e: YieldEntry, i :: e in multiset(c) - multiset(r) && 0 <= i < |r| ==> e.dividendYield <= r[i].dividendYield) &&
      (forall k :: WithYield(r, k) <= WithYield(c, k))
  {
    var c := Combine(stocks, ds, yieldOf);
    var sorted := SortByYield(c);
    SortByYieldSpec(c);
    var r := Ranked(stocks, ds, yieldOf);
    var n := |r|;
    assert r == sorted[..n];
    assert sorted == r + sorted[n..];
    RankedSorted(sorted, n);
    RankedTop(c, sorted, n);
    forall k ensures WithYield(r, k) <= WithYield(c, k) {
      WithYieldAppend(r, sorted[n..], k);
      SortByYieldStable(c, k);
    }
  }

  lemma RankedSorted(sorted: seq<YieldEntry>, n: nat)
    requires SortedByYield(sorted) && n <= |sorted|
    ensures SortedByYield(sorted[..n])
  {
    assert forall i :: 0 <= i < n ==> sorted[..n][i] == sorted[i];
  }

  lemma RankedTop(c: seq<YieldEntry>, sorted: seq<YieldEntry>, n: nat)
    requires SortedByYield(sorted) && multiset(sorted) == multiset(c) && n <= |sorted|
    ensures multiset(sorted[..n]) <= multiset(c)
    ensures forall e: YieldEntry, i :: e in multiset(c) - multiset(sorted[..n]) && 0 <= i < n ==>
      e.dividendYield <= sorted[..n][i].dividendYield
  {
    var r := sorted[..n];
    assert sorted == r + sorted[n..];
    assert multiset(c) == multiset(r) + multiset(sorted[n..]);
    forall e: YieldEntry, i | e in multiset(c) - multiset(r) && 0 <= i < n
      ensures e.dividendYield <= r[i].dividendYield
    {
      assert e in multiset(sorted[n..]);
      assert e in sorted[n..];
      var j :| 0 <= j < |sorted[n..]| && sorted[n..][j] == e;
      assert sorted[n + j] == e && r[i] == sorted[i];
    }
  }

  /** The `catch`: an `Error` gives its message, anything else a fixed one. */
  function ServerError(t: Thrown): (r: Response)
    ensures r.status == 500
    ensures t.Error? ==> r.body == ErrorBody(t.message)
    ensures t.NonError? ==> r.body == ErrorBody(Unexpected)
  {
    Response(500, ErrorBody(if t.Error? then t.message else Unexpected))
  }

  /** The handler after the date check, given what the two fetches gave.
      Under `Promise.all` the first rejection wins; the fetches are taken in
      order here, so a failed price fetch is the one reported. */
  function Respond(stocks: Result<seq<StockRecord>, Thrown>, dividends: Result<seq<DividendRecord>, Thrown>,
                   yieldOf: YieldFn): (r: Response)
    ensures r.status == 200 || r.status == 404 || r.status == 500
    ensures r.status == 200 <==> stocks.Ok? && dividends.Ok? && |stocks.value| > 0 && |dividends.value| > 0
  {
    if stocks.Err? then ServerError(stocks.error)
    else if dividends.Err? then ServerError(dividends.error)
    else if |stocks.value| == 0 || |dividends.value| == 0 then Response(404, ErrorBody(NoData))
    else Response(200, Entries(Ranked(stocks.value, dividends.value, yieldOf)))
  }

  /** Status mapping: a fetch failure is a 500 carrying its message; an empty
      list (with both fetches successful) a 404 with no entries computed;
      otherwise a 200 with the ranked list, which is never empty. */
  lemma RespondSpec(stocks: Result<seq<StockRecord>, Thrown>, dividends: Result<seq<DividendRecord>, Thrown>,
                    yieldOf: YieldFn)
    ensures var r := Respond(stocks, dividends, yieldOf);
      (stocks.Err? ==> r == ServerError(stocks.error)) &&
      (stocks.Ok? && dividends.Err? ==> r == ServerError(dividends.error)) &&
      (stocks.Ok? && dividends.Ok? ==>
        (r.status == 404 <==> |stocks.value| == 0 || |dividends.value| == 0) &&
        (r.status == 404 ==> r.body == ErrorBody(NoData)) &&
        (r.status != 404 ==> r.status == 200 && r.body.Entries? && r.body.entries != [] &&
                             r.body.entries == Ranked(stocks.value, dividends.value, yieldOf)))
  {
    if stocks.Ok? && dividends.Ok? && |stocks.value| > 0 && |dividends.value| > 0 {
      RankedSpec(stocks.value, dividends.value, yieldOf);
    }
  }

  /** `GET(request)`: without a usable `date` a 400 with no fetch at all;
      otherwise the two fetches, in order, then `Respond`. */
  method Get(client: TokenClient, date: Option<string>, creds: Credentials,
             stockAuth: AuthReplies, dividendAuth: AuthReplies,
             prices: Reply<seq<StockRecord>>, dividends: Reply<seq<DividendRecord>>, yieldOf: YieldFn)
    returns (resp: Response, calls: seq<Request>)
    modifies client
    ensures !Truthy(date) ==> resp == Response(400, ErrorBody(DateRequired)) && calls == [] && unchanged(client)
    ensures Truthy(date) ==>
      var p := StockDataAttempt(old(client.State()), date.value, creds, stockAuth, prices);
      var d := DividendDataAttempt(p.state, date.value, creds, dividendAuth, dividends);
      resp == Respond(p.result, d.result, yieldOf) && client.State() == d.state && calls == p.calls + d.calls
  {
    if !Truthy(date) {
      return Response(400, ErrorBody(DateRequired)), [];
    }
    var stockData, stockCalls := client.FetchStockData(date.value, creds, stockAuth, prices);
    var dividendData, dividendCalls := client.FetchDividendData(date.value, creds, dividendAuth, dividends);
    resp := Respond(stockData, dividendData, yieldOf);
    calls := stockCalls + dividendCalls;
  }
}
