/** The pure parts of the dashboard page app/page.tsx: `queryFn`, which
    classifies the reply of the dividend-yield API, the CSV text that
    `handleExport` builds, and the name of the downloaded file.

    `row.join(",")` renders numbers with JavaScript's number-to-string
    conversion; that rendering is abstracted: a row holds each cell as the
    text `join` produces for it. */
module Page {
  import opened Wrappers
  import JQuantsApi
  import DividendYieldRoute

  const UnexpectedFormat := "Unexpected data format received from API"
  const ApiErrorPrefix := "API error: "
  const FilePrefix := "dividend_yield_report_"
  const FileSuffix := ".csv"

  /** The CSV header: code, name, market, price, yield, dividend, market cap. */
  const Header: seq<string> := ["銘柄コード", "銘柄名", "市場名", "株価", "配当利回り", "配当額", "時価総額"]

  /** One item of `data`, each cell as the text `join` gives it. */
  datatype StockRow = StockRow(
    code: string, name: string, market: string, price: string,
    dividendYield: string, dividendAmount: string, marketCap: string)

  /** The JSON body of a reply: an array, an object (with an `error` field
      that may be absent), or anything else (`null`, a string, a number). */
  datatype ApiBody = ArrayBody(rows: seq<StockRow>) | ObjectBody(error: Option<string>) | OtherBody

  /** What `axios.get` gives: a delivered 2xx reply, or an axios error with
      the `error` field of its body (if any) and its own message. */
  datatype ApiReply = Delivered(body: ApiBody) | HttpError(bodyError: Option<string>, message: string)

  /** `queryFn`: the rows, or the message of the error it throws. */
  function QueryFn(reply: ApiReply): (r: Result<seq<StockRow>, string>)
    // an array is the data, unchanged; nothing else is
    ensures r.Ok? <==> reply.Delivered? && reply.body.ArrayBody?
    ensures r.Ok? ==> r.value == reply.body.rows
    // an object with an error gives that message; any other 2xx body a fixed one
    ensures reply.Delivered? && reply.body.ObjectBody? && Truthy(reply.body.error) ==> r == Err(reply.body.error.value)
    ensures reply.Delivered? && !reply.body.ArrayBody? && !(reply.body.ObjectBody? && Truthy(reply.body.error)) ==>
      r == Err(UnexpectedFormat)
    // an HTTP error is prefixed, with the body's error if it has one
    ensures reply.HttpError? ==>
      r == Err(ApiErrorPrefix + if Truthy(reply.bodyError) then reply.bodyError.value else reply.message)
  {
    match reply
    case HttpError(bodyError, message) =>
      Err(ApiErrorPrefix + if Truthy(bodyError) then bodyError.value else message)
    case Delivered(ArrayBody(rows)) => Ok(rows)
    case Delivered(ObjectBody(error)) => if Truthy(error) then Err(error.value) else Err(UnexpectedFormat)
    case Delivered(OtherBody) => Err(UnexpectedFormat)
  }

  /** `Array.prototype.join(sep)` on strings. */
  function Join(parts: seq<string>, sep: char): (r: string)
    // the first part comes first
    ensures |parts| >= 1 ==> parts[0] <= r
  {
    if parts == [] then []
    else if |parts| == 1 then parts[0]
    else parts[0] + [sep] + Join(parts[1..], sep)
  }

  /** `String.prototype.split(sep)` for a one-character separator: the
      pieces between separators, one more piece than separators. */
  function Split(s: string, sep: char): (r: seq<string>)
    ensures |r| >= 1
  {
    if s == [] then [[]]
    else if s[0] == sep then [[]] + Split(s[1..], sep)
    else var rest := Split(s[1..], sep); [[s[0]] + rest[0]] + rest[1..]
  }

  /** A separator-free prefix ends up in the first piece. */
  lemma {:induction false} SplitPrefix(a: string, t: string, sep: char)
    requires sep !in a
    ensures Split(a + t, sep) == [a + Split(t, sep)[0]] + Split(t, sep)[1..]
  {
    if a == [] {
      assert a + t == t;
      var r := Split(t, sep);
      assert a + r[0] == r[0];
      assert r == [r[0]] + r[1..];
    } else {
      assert (a + t)[0] == a[0] && (a + t)[1..] == a[1..] + t;
      SplitPrefix(a[1..], t, sep);
      assert [a[0]] + (a[1..] + Split(t, sep)[0]) == a + Split(t, sep)[0];
    }
  }

  /** Splitting undoes joining when no part holds the separator. */
  lemma {:induction false} SplitJoin(parts: seq<string>, sep: char)
    requires |parts| >= 1
    requires forall i :: 0 <= i < |parts| ==> sep !in parts[i]
    ensures Split(Join(parts, sep), sep) == parts
  {
    if |parts| == 1 {
      SplitPrefix(parts[0], [], sep);
      assert parts[0] + [] == parts[0];
    } else {
      var rest := Join(parts[1..], sep);
      SplitJoin(parts[1..], sep);
      assert parts[0] + [sep] + rest == parts[0] + ([sep] + rest);
      SplitPrefix(parts[0], [sep] + rest, sep);
      assert ([sep] + rest)[0] == sep && ([sep] + rest)[1..] == rest;
      assert Split([sep] + rest, sep) == [[]] + parts[1..];
      assert parts[0] + [] == parts[0];
      assert parts == [parts[0]] + parts[1..];
    }
  }

  /** The seven cells of a row, in column order. */
  function Cells(row: StockRow): seq<string> {
    [row.code, row.name, row.market, row.price, row.dividendYield, row.dividendAmount, row.marketCap]
  }

  function Line(cells: seq<string>): string {
    Join(cells, ',')
  }

  /** The lines of the CSV: the header, then one line per row. */
  function Lines(rows: seq<StockRow>): seq<string> {
    [Line(Header)] + seq(|rows|, i requires 0 <= i < |rows| => Line(Cells(rows[i])))
  }

  /** The text `handleExport` builds: comma-joined cells, newline-joined
      lines, no quoting and no final newline. */
  function Csv(rows: seq<StockRow>): (r: string)
    // one newline per data row, beside any inside the cells
    ensures Count(r, '\n') == CountAll(Lines(rows), '\n') + |rows|
  {
    JoinCount(Lines(rows), '\n');
    Join(Lines(rows), '\n')
  }

  /** `dividend_yield_report_${date}.csv` */
  function FileName(date: string): (r: string)
    // the date is recovered between the fixed prefix and the `.csv` suffix
    ensures FilePrefix <= r
    ensures |r| == |FilePrefix| + |date| + |FileSuffix|
    ensures r[|FilePrefix|..|FilePrefix| + |date|] == date
    ensures r[|FilePrefix| + |date|..] == FileSuffix
  {
    FilePrefix + date + FileSuffix
  }

  datatype Download = Download(fileName: string, content: string)

  /** `handleExport`: nothing without data; otherwise the file to download. */
  function Export(date: string, data: Option<seq<StockRow>>): (r: Option<Download>)
    ensures r.None? <==> data.None?
    ensures data.Some? ==> r == Some(Download(FileName(date), Csv(data.value)))
  {
    match data
    case None => None
    case Some(rows) => Some(Download(FileName(date), Csv(rows)))
  }

  predicate NoCellHolds(rows: seq<StockRow>, c: char) {
    forall i, k :: 0 <= i < |rows| && 0 <= k < 7 ==> c !in Cells(rows[i])[k]
  }

  lemma HeaderPlain()
    ensures forall k :: 0 <= k < |Header| ==> ',' !in Header[k] && '\n' !in Header[k]
  {
  }

  /** With no newline inside a cell, the CSV reads back as the header line
      followed by exactly one line per row, in order: `|rows| + 1` lines. */
  lemma CsvLines(rows: seq<StockRow>)
    requires NoCellHolds(rows, '\n')
    ensures Split(Csv(rows), '\n') == Lines(rows)
    ensures |Split(Csv(rows), '\n')| == |rows| + 1
  {
    LinesPlain(rows);
    SplitJoin(Lines(rows), '\n');
  }

  lemma HeaderLinePlain()
    ensures '\n' !in Line(Header)
  {
    HeaderPlain();
    NoSeparatorInLine(Header, '\n');
  }

  /** With no newline inside a cell, no line holds one. */
  lemma LinesPlain(rows: seq<StockRow>)
    requires NoCellHolds(rows, '\n')
    ensures forall i :: 0 <= i < |Lines(rows)| ==> '\n' !in Lines(rows)[i]
  {
    var lines := Lines(rows);
    forall i | 0 <= i < |lines| ensures '\n' !in lines[i] {
      if i == 0 {
        HeaderLinePlain();
      } else {
        assert lines[i] == Line(Cells(rows[i - 1]));
        NoSeparatorInLine(Cells(rows[i - 1]), '\n');
      }
    }
  }

  /** A line of cells without `c` has no `c` other than the comma joins. */
  lemma {:induction false} NoSeparatorInLine(cells: seq<string>, c: char)
    requires c != ','
    requires forall k :: 0 <= k < |cells| ==> c !in cells[k]
    ensures c !in Line(cells)
  {
    if |cells| > 1 {
      NoSeparatorInLine(cells[1..], c);
    }
  }

  /** With no comma inside a cell, each data line reads back as the row's
      seven cells, and the header line as the seven headings. */
  lemma CsvFields(row: StockRow)
    requires forall k :: 0 <= k < 7 ==> ',' !in Cells(row)[k]
    ensures Split(Line(Cells(row)), ',') == Cells(row)
    ensures Split(Line(Header), ',') == Header
  {
    SplitJoin(Cells(row), ',');
    HeaderPlain();
    SplitJoin(Header, ',');
  }

  /** How often `c` occurs in `s`. */
  function Count(s: string, c: char): nat {
    multiset(s)[c]
  }

  /** How often `c` occurs in all the parts together. */
  function CountAll(parts: seq<string>, c: char): nat {
    if parts == [] then 0 else Count(parts[0], c) + CountAll(parts[1..], c)
  }

  /** Every separator starts a new piece. */
  lemma {:induction false} SplitCount(s: string, sep: char)
    ensures |Split(s, sep)| == Count(s, sep) + 1
    decreases |s|
  {
    if s != [] {
      SplitCount(s[1..], sep);
      assert s == [s[0]] + s[1..];
      assert multiset(s) == multiset{s[0]} + multiset(s[1..]);
    }
  }

  /** Joining adds one separator between each two parts, and no other. */
  lemma {:induction false} JoinCount(parts: seq<string>, sep: char)
    requires |parts| >= 1
    ensures Count(Join(parts, sep), sep) == CountAll(parts, sep) + |parts| - 1
    decreases |parts|
  {
    if |parts| > 1 {
      JoinCount(parts[1..], sep);
      var rest := Join(parts[1..], sep);
      assert multiset(parts[0] + [sep] + rest) == multiset(parts[0]) + multiset{sep} + multiset(rest);
    } else {
      assert parts[1..] == [];
    }
  }

  /** No quoting: every comma inside a cell adds a column to its line, so a
      row whose cells hold `m` commas reads back as `7 + m` fields. */
  lemma CommaInCellAddsColumn(row: StockRow)
    ensures |Split(Line(Cells(row)), ',')| == 7 + CountAll(Cells(row), ',')
  {
    JoinCount(Cells(row), ',');
    SplitCount(Line(Cells(row)), ',');
  }

  /** How a response of the dividend-yield route reaches `queryFn`: axios
      delivers a 2xx status and turns any other into an axios error carrying
      the body. `render` gives the row `join` sees for an entry, and
      `statusMessage` is axios's own message for a status. */
  function Transport(resp: DividendYieldRoute.Response, render: DividendYieldRoute.YieldEntry -> StockRow,
                     statusMessage: int -> string): (r: ApiReply)
    ensures r.Delivered? <==> 200 <= resp.status < 300
    ensures r.Delivered? && resp.body.Entries? ==> r.body.ArrayBody? && |r.body.rows| == |resp.body.entries|
    ensures r.HttpError? ==> r.message == statusMessage(resp.status)
    ensures r.HttpError? && resp.body.ErrorBody? ==> r.bodyError == Some(resp.body.error)
    ensures r.HttpError? && resp.body.Entries? ==> r.bodyError == None
  {
    if 200 <= resp.status < 300 then
      match resp.body
      case Entries(es) => Delivered(ArrayBody(seq(|es|, i requires 0 <= i < |es| => render(es[i]))))
      case ErrorBody(m) => Delivered(ObjectBody(Some(m)))
    else
      HttpError(if resp.body.ErrorBody? then Some(resp.body.error) else None, statusMessage(resp.status))
  }

  /** Every reply of the route lands in the first or the last branch of
      `queryFn`: a 200 is the ranked list, row for row; a 400, 404 or 500 is
      shown as "API error: " and the route's message (axios's own message
      when that is empty). The object-with-error branch is never taken. */
  lemma RouteRepliesReachQuery(date: Option<string>,
                               stocks: Result<seq<JQuantsApi.StockRecord>, JQuantsApi.Thrown>,
                               dividends: Result<seq<JQuantsApi.DividendRecord>, JQuantsApi.Thrown>,
                               yieldOf: DividendYieldRoute.YieldFn,
                               render: DividendYieldRoute.YieldEntry -> StockRow, statusMessage: int -> string)
    ensures var r := if !Truthy(date) then DividendYieldRoute.Response(400, DividendYieldRoute.ErrorBody(DividendYieldRoute.DateRequired))
                     else DividendYieldRoute.Respond(stocks, dividends, yieldOf);
      var q := QueryFn(Transport(r, render, statusMessage));
      (r.status == 200 ==> r.body.Entries? && q.Ok? && |q.value| == |r.body.entries| &&
                           forall i :: 0 <= i < |q.value| ==> q.value[i] == render(r.body.entries[i])) &&
      (r.status != 200 ==> r.body.ErrorBody? &&
                           q == Err(ApiErrorPrefix + if r.body.error != "" then r.body.error else statusMessage(r.status)))
  {
    DividendYieldRoute.RespondSpec(stocks, dividends, yieldOf);
  }
}
