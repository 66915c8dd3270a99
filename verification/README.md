# fundinfo core in Dafny

The fundinfo service scrapes a fund's net-asset-value (NAV) history from
Sina's open API into a `fund_worth` table. It then serves two things from
that table: a chart and a dollar-cost-averaging calculator, which buys a
fixed amount of the fund each month and values the units at the end date.
This project models the logic behind both halves:

- **Crawler** (`crawl.dfy`, `unit_worth/craw_worth.go`). `CrawFundAllWorth`
  picks the date window from the latest stored date. It requests pages 1, 2,
  3, … of the remote history until `isFinished` signals the end, and inserts
  one `(fund_code, fbrq, jjjz, ljjz, "sina")` row per entry. An insert that
  fails is only logged.
- **Query layer** (`fund_query.dfy`, `queryFund`). This is the parameterised
  SQL statement, with its optional lower and upper date filters and its
  ascending date order.
- **NAV resolution** (`nav_lookup.dfy`, `listToMap` and
  `queryFundUnitWorth`). Records are indexed by date text; a later duplicate
  wins. A date is resolved by scanning forward one day at a time until a
  record exists or the scan passes "now".
- **Gain calculator** (`gain.dfy`, `calcGain`):
  - input validation, in the code's order;
  - the single history load from the start date;
  - the end-date NAV;
  - the monthly contribution loop, which uses `AddDate(0, 1, 0)` and an
    int64 running total.
- **Support modules**:
  - `civil_date.dfy`: dates in the `2006-01-02` layout, Go's `time.Parse`,
    `Format`, `AddDate` normalisation and `After`.
  - `decimal.dfy`: digit strings, `strconv.ParseInt(s, 10, 64)` and int64
    wrap-around.
  - `records.dfy`: the `FundWorth` record.
  - `wrappers.dfy`: `Option` and `Result`.

Everything is a pure function of its inputs:

- The clock reading ("now", "today") is a `Date` parameter.
- The store's answers are parameters: the history load as a `Result`, the
  crawler's max-date query as a `Result`, and each insert's success as
  `insertOk(i)`.
- The remote API is a sequence of optional responses, indexed by page.

Three behaviours of `calcGain` are easy to misread, so they are stated
outright:

- The amount is any base-10 int64. Zero and negative amounts pass
  validation (`Gain.ZeroAmountAccepted`, `Gain.NegativeAmountAccepted`).
- The end-date NAV is resolved before the contribution loop. So a missing
  end NAV fails the request (`NoEndWorth`) before any contribution date is
  looked up.
- The loop body runs before the end test. So a start date after the end
  still makes one contribution (`Gain.SingleContribution`).

## Model

| member | source | states |
|---|---|---|
| FundQuery.BuildQuery | main/fund-view.go:96-108 | The statement starts with the fixed select on `fund_code=?` and ends with `order by info_date asc`. It has one `?` per bound parameter. Parameters are `[code]` plus `fromDate` and `toDate`, each only when non-empty. A `>=` filter appears exactly when `fromDate` is non-empty, a `<=` filter exactly when `toDate` is. The `info_date >= ?` clause follows the select directly; the `info_date <= ?` clause comes right before the order clause. With neither date the statement is just the select and the order clause. |
| FundQuery.QueryShape | main/fund-view.go:96-108 | Counts the placeholders of every combination of the two optional filters. Each comparison character appears exactly when its filter is present. |
| NavLookup.ListToMap | main/fund-view.go:216-221 | The keys are exactly the records' `InfoDate`s. Each key maps to a record with that date. Of several records with one date, the last wins. |
| NavLookup.LookupWorth | main/fund-view.go:200-212 | A record stored under the date's own key is returned. Any result is one of the indexed records. |
| NavLookup.LookupWorthScans | main/fund-view.go:200-212 | A success is the record of the first scanned day that has a key, and no earlier scanned day has one. The lookup fails exactly when no scanned day has a key. Day 0 is always scanned; later days only while they are not after "now". |
| NavLookup.SkipsClosedDay | main/fund-view.go:203-209 | With records for 2022-04-11 and 2022-04-13 only, the target 2022-04-12 resolves to the 2022-04-13 record. |
| CivilDate.NextDay | main/fund-view.go:208 | `AddDate(0, 0, 1)` gives a valid date exactly one day later on the time line. |
| CivilDate.AddMonth | main/fund-view.go:189 | `AddDate(0, 1, 0)` gives a valid date. It lies the current month's length in days later, so it is strictly after the input. It keeps the day-of-month when the next month has that day. |
| CivilDate.Normalize | main/fund-view.go:189 | A day-of-month past the end of its month carries into the following months: the result is `day - 1` days after the first of the month. |
| CivilDate.AddMonthOverflowsFebruary | main/fund-view.go:189 | 2023-01-31 plus one month is 2023-03-03. |
| CivilDate.AddMonthOverflowsLeapFebruary | main/fund-view.go:189 | 2024-01-31 plus one month is 2024-03-02. |
| CivilDate.AddMonthOverflowsApril | main/fund-view.go:189 | 2023-03-31 plus one month is 2023-05-01, and 2022-12-15 rolls over to 2023-01-15. |
| CivilDate.After | main/fund-view.go:190 | `t.After(u)` on midnight instants holds exactly when (year, month, day) is lexicographically greater. |
| CivilDate.FormatFields | common/define.go:3 | For a four-digit year the text has the `2006-01-02` shape (four digits, dash, two digits, dash, two digits), and its three fields read back as the year, month and day. |
| CivilDate.Parse | main/fund-view.go:152 | Text without the layout's shape is rejected. Shaped text is accepted exactly when its month is 1–12 and its day exists in that month, and then the date is the three fields' decimal values. |
| CivilDate.ParseFormat | common/define.go:3 | Formatting a date with the `2006-01-02` layout and parsing it back gives the date (four-digit years). |
| CivilDate.FormatParse | main/fund-view.go:152 | Every string `time.Parse` accepts is exactly the formatting of the date it yields. |
| CivilDate.FormatInjective | main/fund-view.go:203-204 | Two dates with four-digit years (below 10000) have the same map key exactly when they are equal. |
| CivilDate.AprilKeys | main/fund-view.go:203 | 2022-04-12 and 2022-04-13 format to the texts "2022-04-12" and "2022-04-13". |
| Decimal.ParseInt64 | main/fund-view.go:143 | Text is accepted exactly when it is an optional sign followed by one or more digits and the number it denotes is an int64; the value is that number. |
| Decimal.Int64Edges | main/fund-view.go:143 | "-9223372036854775808" and "9223372036854775807" parse to the int64 limits; one past either limit is rejected. |
| Decimal.NonIntegersRejected | main/fund-view.go:143-147 | "1.5", "abc", "", "-" and " 1" are rejected; "+7" is 7. |
| Decimal.ParseFormatInt | main/fund-view.go:143 | Every int64 printed in base 10 parses back to itself. |
| Decimal.Wrap64 | main/fund-view.go:187 | The result is an int64, and an in-range value is unchanged. |
| Decimal.WrapCongruent | main/fund-view.go:187 | The wrapped value differs from the mathematical one by a multiple of 2^64. |
| Decimal.WrapAdd | main/fund-view.go:187 | Wrapping after each addition equals wrapping once after the whole sum. |
| Gain.StartDate | main/fund-view.go:158 | The start cursor is the parsed start date when it parses, otherwise Go's zero time, 0001-01-01. |
| Gain.EndDate | main/fund-view.go:149-157 | An absent `end` means now. A present one is `time.Parse` of it, and an accepted end date formats back to the given text. |
| Gain.Validate | main/fund-view.go:139-157 | Checks run in the code's order, each as an if-and-only-if: a missing code/start/amount, then an amount that is not an int64, then a present but unparseable end. On success the plan holds the parsed amount, the end date (or now) and the start date (or 0001-01-01, the zero time). |
| Gain.CalcGain | main/fund-view.go:133-176 | The history query is issued exactly when validation passes. It is `queryFund(code, start, "")`. A validation failure is reported as is, without touching the store. After validation: `QueryFailed` exactly when the store errs, `NoData` exactly when the history is empty, `NoEndWorth` exactly when the history is non-empty and the end date's NAV does not resolve. |
| Gain.Simulate | main/fund-view.go:160-176 | `QueryFailed` with the store's message exactly when the store errs. `NoData` exactly when the history is empty. `NoEndWorth` exactly when the history is non-empty and the end date's NAV does not resolve. A contribution lookup failure happens only after the end NAV resolved. Success implies a non-empty history. Failures after the load are never validation errors. |
| Gain.Schedule | main/fund-view.go:181-193 | The visited cursors begin with the start date and are all valid. |
| Gain.ScheduleMonthly | main/fund-view.go:189 | Each cursor is `AddDate(0, 1, 0)` of the previous one. |
| Gain.ScheduleWithinEnd | main/fund-view.go:189-192 | Every cursor after the first is not after the end date, so a cursor equal to the end is visited. |
| Gain.ScheduleStops | main/fund-view.go:189-192 | One more month after the last cursor passes the end date. |
| Gain.Contribute | main/fund-view.go:181-193 | A completed loop made at least one purchase, the first at the start cursor. A start cursor whose NAV cannot be found aborts there. |
| Gain.ContributeCompletes | main/fund-view.go:181-193 | The loop completes exactly when every scheduled date's NAV resolves. It then makes one purchase per scheduled date, in order, each priced by that date's NAV. |
| Gain.ContributeTotal | main/fund-view.go:178-187 | A completed loop added the amount once per scheduled date to the running int64 total. |
| Gain.ContributeAborts | main/fund-view.go:183-186 | An aborted loop stopped at a scheduled date whose NAV does not resolve, and every earlier scheduled date's NAV resolves. |
| Gain.AddRepeatedlyIsProduct | main/fund-view.go:187 | n int64 additions of the amount equal the wrapped value of total + amount × n. |
| Gain.CalcGainSucceeds | main/fund-view.go:160-193 | A successful request passed validation and loaded a non-empty history. The end NAV is the end date's resolution. Purchases are priced at the scheduled dates. Total invested is amount × number of purchases, wrapped to int64. |
| Gain.SimulateSucceeds | main/fund-view.go:166-193 | The same facts for the steps after validation. |
| Gain.CalcGainLookupFails | main/fund-view.go:181-186 | A `LookupFailed(at)` failure names the first scheduled date whose NAV does not resolve. |
| Gain.SimulateLookupFails | main/fund-view.go:181-186 | The same fact for the steps after validation. |
| Gain.ValidationIgnoresStore | main/fund-view.go:139-161 | A request rejected by validation has the same outcome whatever the store holds. |
| Gain.ZeroAmountAccepted | main/fund-view.go:143-147 | An amount of "0" passes validation with value 0. |
| Gain.NegativeAmountAccepted | main/fund-view.go:143-147 | An amount of "-100" passes validation with value -100. |
| Gain.SingleContribution | main/fund-view.go:181-193 | When the end is not after the start (including start == end), exactly one contribution is made, at the start. |
| Gain.ThreeMonthSchedule | main/fund-view.go:181-193 | From 2022-01-01 to 2022-03-01 the contributions fall on 2022-01-01, 2022-02-01 and 2022-03-01. |
| Crawl.ToRow | unit_worth/craw_worth.go:110-112 | An inserted row binds the fund code, `fbrq`, `jjjz`, `ljjz` and the tag "sina". |
| Crawl.PageRows | unit_worth/craw_worth.go:93-96 | A page yields one row per entry, in the page's order; a missing page yields none. |
| Crawl.DetailRows | unit_worth/craw_worth.go:94-95 | One row per entry, in order. |
| Crawl.Fetch | unit_worth/craw_worth.go:85-87 | Page p (from 1) answers the p-th response; a page past the known responses answers nothing. |
| Crawl.CrawledPages | unit_worth/craw_worth.go:88-90 | Every page before the count is not finished, and the page right after it is finished (no response, non-zero status, or no entries). |
| Crawl.CrawlWindow | unit_worth/craw_worth.go:75-82 | Without a stored date both bounds are empty. Otherwise the lower bound is the stored max date and the upper bound is today in `YYYY-MM-DD`. |
| Crawl.WindowEndsToday | unit_worth/craw_worth.go:80-82 | The upper bound parses back to today, and the lower bound is empty exactly when no date is stored. |
| Crawl.IsFinishedCases | unit_worth/craw_worth.go:118-121 | The crawl goes on past a response exactly when it arrived, has status 0, and yields at least one row; otherwise `isFinished` holds. |
| Crawl.ApiUrlShape | unit_worth/craw_worth.go:85 | Every request goes to Sina's `getNav` service; its URL ends with `&page=` and the page number in decimal, which reads back as the page. |
| Crawl.ApiUrlPage | unit_worth/craw_worth.go:15 | Two URLs for the same window are equal exactly when their page numbers are equal. |
| Crawl.PageUrls | unit_worth/craw_worth.go:84-85 | The n-th URL requested is the API template with code, from, to and page n. |
| Crawl.CrawFundAllWorth | unit_worth/craw_worth.go:64-99 | If the max-date query fails, nothing is requested or inserted. Otherwise: pages 1 … k+1 are requested with the same window, where k is the number of pages before the first finished response. The rows inserted are the concatenation of those k pages' rows. Failed inserts are only collected. The report is k pages. |
| Crawl.SavePage | unit_worth/craw_worth.go:93-96 | Every entry of a page is inserted in order after the earlier rows, whatever earlier inserts returned. |
| Crawl.RowsOfShape | unit_worth/craw_worth.go:110-112 | Every inserted row carries the crawled fund code and the "sina" tag. There is one row per entry of the crawled pages. |
| Crawl.FailedInsertsAreRows | unit_worth/craw_worth.go:112-115 | Failed inserts are among the attempted rows, and none fail when every insert succeeds. |
| Crawl.UpToDate | unit_worth/craw_worth.go:88-90 | A finished first page ends the crawl with 0 pages and no rows. |
| Crawl.TwoPageCrawl | unit_worth/craw_worth.go:84-99 | A non-empty page 1 followed by an empty page 2 inserts exactly page 1's entries and reports one page. |
| Crawl.FirstFinished | unit_worth/craw_worth.go:88-90 | A finished page that follows only unfinished ones fixes the page count. |

## Left out

- HTTP handlers are not modelled. This covers `handleQuery` (the `/view/`
  handler, which only checks that `code` is present and passes `from` and
  `to` to `queryFund`), the commented-out `showGain`, `main` and the
  parameter reading. `calcGain`'s query parameters arrive
  as a `GainRequest`; an absent parameter is the empty string.
- `drawEchart` is not modelled: it only renders output.
- `roundFloat` and the float arithmetic on units, market value and
  profit/loss are not modelled. Floating point is outside the model; the
  summary carries the purchases (cursor and pricing record) they are
  computed from.
- The connection handling in `queryFund` and its row-scanning loop are not
  modelled. The load's result is an input. `dbs/connector.go` and
  `biz/fund-query.go` are not part of this model.
- `Records.FundWorth`: `queryFund` does not select the `source` column, so
  Go leaves `Source` empty. The model takes the loaded records as given.
- `UnitWorthCrawler.Craw` is not modelled: it does the HTTP fetch and JSON
  decoding. Its result is an optional `Response`. The nil-pointer
  dereference of `defer resp.Body.Close()` on a transport error is not
  modelled.
- `openDB`'s `os.Exit(1)` on connection failure is not modelled: the
  process just ends. So is the `sql.ErrNoRows` branch of the max-date
  query: the store's answer is a `Result<string, string>`.
- `rows.Scan` of a NULL max date into a string is modelled only through
  its effect. The scan error is ignored and `dateFrom` stays empty, which
  the model gets by passing "" as the stored date.
- Crawl.CrawFundAllWorth: the remote API is a finite sequence, and every
  page past it answers nothing. So the loop always ends. A remote that
  never signals the end, which makes Go loop forever, is not modelled.
- Crawl.Response: `total_num` is carried but never used, as in the code.
- Time of day and time zones are not modelled. Dates are whole days.
  "now" is one clock reading; Go calls `time.Now()` again in every
  `queryFundUnitWorth` call.
- Logging and the response text (`fmt.Println`, `fmt.Fprint`) are not
  modelled. Errors are the `GainError` and `CrawlReport` constructors, not
  message strings.
