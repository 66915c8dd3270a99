/** The incremental NAV crawl, `CrawFundAllWorth`: pick the date window from
    the latest stored date, then request pages 1, 2, 3, ... of the remote
    history until a response signals the end, inserting every record of
    every page before it. The remote API is a sequence of answers indexed by
    page; a page past its end answers nothing (a nil response), so the loop
    always ends. */
module Crawl {
  import opened Wrappers
  import opened Decimal
  import opened CivilDate

  /** One NAV entry of a response: `fbrq` the date, `jjjz` the unit NAV,
      `ljjz` the cumulative NAV, all as the API's text. */
  datatype FundDetail = FundDetail(fbrq: string, jjjz: string, ljjz: string)

  /** A decoded `UWResp`: status code, the entries, and `total_num`. */
  datatype Response = Response(statusCode: int, data: seq<FundDetail>, totalNum: string)

  /** The values `saveFund` binds to its insert statement. */
  datatype Row = Row(fundCode: string, infoDate: string, unitWorth: string, totalWorth: string, source: string)

  /** How the crawl ended: the store refused the max-date query, or the
      remote signalled the end and the crawl reports how many pages it saw. */
  datatype CrawlReport = StoreFailed(message: string) | Finished(totalPages: nat)

  /** `isFinished`: no response (unreachable or malformed), a non-zero
      status, or a page without entries. */
  predicate IsFinished(resp: Option<Response>) {
    resp.None? || resp.value.statusCode != 0 || |resp.value.data| == 0
  }

  /** A response lets the crawl go on exactly when it arrived, reports
      status 0, and gives rows to insert. */
  lemma IsFinishedCases(code: string, resp: Option<Response>)
    ensures !IsFinished(resp) <==>
      resp.Some? && resp.value.statusCode == 0 && |PageRows(code, resp)| > 0
  {
  }

  /** The row `saveFund` inserts for one entry; the source tag is "sina". */
  function ToRow(code: string, item: FundDetail): (r: Row)
    ensures r.fundCode == code && r.source == "sina"
    ensures r.infoDate == item.fbrq && r.unitWorth == item.jjjz && r.totalWorth == item.ljjz
  {
    Row(code, item.fbrq, item.jjjz, item.ljjz, "sina")
  }

  /** The rows of one page, in the page's order; a missing page has none. */
  function PageRows(code: string, resp: Option<Response>): (rows: seq<Row>)
    ensures resp.None? ==> rows == []
    ensures resp.Some? ==>
      |rows| == |resp.value.data| && forall i :: 0 <= i < |rows| ==> rows[i] == ToRow(code, resp.value.data[i])
  {
    match resp
    case None => []
    case Some(r) => DetailRows(code, r.data)
  }

  /** One row per entry, in the entries' order. */
  function DetailRows(code: string, items: seq<FundDetail>): (rows: seq<Row>)
    ensures |rows| == |items|
    ensures forall i :: 0 <= i < |rows| ==> rows[i] == ToRow(code, items[i])
  {
    if |items| == 0 then [] else [ToRow(code, items[0])] + DetailRows(code, items[1..])
  }

  /** The rows of consecutive pages, concatenated in page order. */
  function RowsOf(code: string, pages: seq<Option<Response>>): seq<Row>
  {
    if |pages| == 0 then [] else RowsOf(code, pages[..|pages| - 1]) + PageRows(code, pages[|pages| - 1])
  }

  /** What the remote answers for page `page` (counted from 1). */
  function Fetch(responses: seq<Option<Response>>, page: nat): (r: Option<Response>)
    ensures 1 <= page <= |responses| ==> r == responses[page - 1]
    ensures page == 0 || page > |responses| ==> r == None
  {
    if 1 <= page <= |responses| then responses[page - 1] else None
  }

  /** The number of pages before the first finished response. */
  function CrawledPages(responses: seq<Option<Response>>): (n: nat)
    ensures n <= |responses|
    ensures forall i :: 0 <= i < n ==> !IsFinished(responses[i])
    ensures IsFinished(Fetch(responses, n + 1))
  {
    if |responses| == 0 || IsFinished(responses[0]) then 0
    else 1 + CrawledPages(responses[1..])
  }

  /** The date window: without a stored date both bounds are empty (the
      whole history); otherwise from the stored maximum date to today,
      formatted "YYYY-MM-DD". */
  function CrawlWindow(maxDate: string, today: Date): (w: (string, string))
    requires Valid(today)
    ensures |maxDate| == 0 ==> w == ("", "")
    ensures |maxDate| > 0 ==> w.0 == maxDate && w.1 == Format(today)
  {
    if |maxDate| > 0 then (maxDate, Format(today)) else ("", "")
  }

  /** The window's upper bound reads back as today. */
  lemma WindowEndsToday(maxDate: string, today: Date)
    requires Valid(today) && today.year < 10000
    ensures |maxDate| > 0 ==> Parse(CrawlWindow(maxDate, today).1) == Some(today)
    ensures |maxDate| == 0 <==> |CrawlWindow(maxDate, today).0| == 0
  {
    if |maxDate| > 0 {
      ParseFormat(today);
    }
  }

  const ApiHost: string := "https://" + "stock.finance.sina.com.cn"
  const ApiPath: string := "/fundInfo/api/" + "openapi.php/"
  const ApiService: string := "CaihuiFundInfoService" + ".getNav"
  const ApiBase: string := ApiHost + ApiPath + ApiService
  const SymbolKey: string := "?symbol="
  const FromKey: string := "&datefrom="
  const ToKey: string := "&dateto="
  const PageKey: string := "&page="

  /** The request URL: the API template with fund code, from-date, to-date
      and the decimal page number substituted in that order. */
  function ApiUrl(code: string, dateFrom: string, dateTo: string, page: nat): string
  {
    ApiBase + SymbolKey + code + FromKey + dateFrom + ToKey + dateTo + PageKey + ToDecimal(page)
  }

  /** Every request goes to the getNav service, and its last parameter is
      `page` with the page number in decimal, which reads back as the page. */
  lemma ApiUrlShape(code: string, dateFrom: string, dateTo: string, page: nat)
    ensures var u := ApiUrl(code, dateFrom, dateTo, page);
      |ApiBase + SymbolKey| <= |u| && u[..|ApiBase + SymbolKey|] == ApiBase + SymbolKey
    ensures var u, tail := ApiUrl(code, dateFrom, dateTo, page), PageKey + ToDecimal(page);
      |tail| <= |u| && u[|u| - |tail|..] == tail && ValueOf(tail[|PageKey|..]) == page
  {
    Affixes(ApiBase, SymbolKey, code, FromKey, dateFrom, ToKey, dateTo, PageKey, ToDecimal(page));
    ValueOfToDecimal(page);
  }

  /** Where the first two and the last two parts of a nine-part
      concatenation sit in it. */
  lemma Affixes(a: string, b: string, c: string, d: string, e: string, f: string, g: string,
                key: string, val: string)
    ensures var u := a + b + c + d + e + f + g + key + val;
      && |a + b| <= |u| && u[..|a + b|] == a + b
      && |key + val| <= |u| && u[|u| - |key + val|..] == key + val
      && (key + val)[|key|..] == val
  {
    var u := a + b + c + d + e + f + g + key + val;
    var mid := c + d + e + f + g;
    assert u == (a + b) + mid + (key + val);
    assert u == (a + b + mid) + (key + val);
  }

  /** Requests for different pages of the same window differ, and the page
      number can be read back from the URL's tail. */
  lemma ApiUrlPage(code: string, dateFrom: string, dateTo: string, p: nat, q: nat)
    ensures ApiUrl(code, dateFrom, dateTo, p) == ApiUrl(code, dateFrom, dateTo, q) <==> p == q
  {
    var head := ApiBase + SymbolKey + code + FromKey + dateFrom + ToKey + dateTo + PageKey;
    var u, v := ApiUrl(code, dateFrom, dateTo, p), ApiUrl(code, dateFrom, dateTo, q);
    assert u == head + ToDecimal(p) && v == head + ToDecimal(q);
    if u == v {
      assert u[|head|..] == ToDecimal(p);
      assert v[|head|..] == ToDecimal(q);
      ValueOfToDecimal(p);
      ValueOfToDecimal(q);
    }
  }

  /** The rows whose insert failed, in attempt order; attempt `i` is the
      `i`-th row of the whole crawl and `insertOk(i)` the store's verdict. */
  function FailedInserts(rows: seq<Row>, insertOk: nat -> bool): seq<Row>
  {
    if |rows| == 0 then []
    else FailedInserts(rows[..|rows| - 1], insertOk)
         + (if insertOk(|rows| - 1) then [] else [rows[|rows| - 1]])
  }

  /** The URLs of pages 1 to n of one window, in request order. */
  function PageUrls(code: string, dateFrom: string, dateTo: string, n: nat): (urls: seq<string>)
    ensures |urls| == n
    ensures forall i :: 0 <= i < n ==> urls[i] == ApiUrl(code, dateFrom, dateTo, i + 1)
  {
    if n == 0 then [] else PageUrls(code, dateFrom, dateTo, n - 1) + [ApiUrl(code, dateFrom, dateTo, n)]
  }

  /** `CrawFundAllWorth(code)`. `stored` is the max-date query's answer ("" when
      the fund has no rows), `today` the clock, `responses` the remote's
      answer per page and `insertOk` the store's verdict per insert attempt.
      Returns the URLs requested, the rows whose insert was attempted, the
      rows whose insert failed (only logged) and the report. */
  method CrawFundAllWorth(code: string, stored: Result<string, string>, today: Date,
                          responses: seq<Option<Response>>, insertOk: nat -> bool)
    returns (urls: seq<string>, rows: seq<Row>, failed: seq<Row>, report: CrawlReport)
    requires Valid(today)
    ensures stored.Failure? ==> urls == [] && rows == [] && failed == [] && report == StoreFailed(stored.error)
    ensures stored.Success? ==>
      && report == Finished(CrawledPages(responses))
      && urls == PageUrls(code, CrawlWindow(stored.value, today).0, CrawlWindow(stored.value, today).1,
                          CrawledPages(responses) + 1)
      && rows == RowsOf(code, responses[..CrawledPages(responses)])
      && failed == FailedInserts(rows, insertOk)
  {
    urls, rows, failed := [], [], [];
    if stored.Failure? {
      return urls, rows, failed, StoreFailed(stored.error);
    }
    var dateFrom, dateTo := CrawlWindow(stored.value, today).0, CrawlWindow(stored.value, today).1;
    var pages := CrawledPages(responses);
    var pageNo: nat := 1;
    while true
      invariant 1 <= pageNo <= pages + 1
      invariant urls == PageUrls(code, dateFrom, dateTo, pageNo - 1)
      invariant rows == RowsOf(code, responses[..pageNo - 1])
      invariant failed == FailedInserts(rows, insertOk)
      decreases pages + 1 - pageNo
    {
      urls := urls + [ApiUrl(code, dateFrom, dateTo, pageNo)];
      assert urls == PageUrls(code, dateFrom, dateTo, pageNo);
      var resp := Fetch(responses, pageNo);
      if IsFinished(resp) {
        FirstFinished(responses, pageNo - 1);
        return urls, rows, failed, Finished(pageNo - 1);
      }
      assert pageNo <= pages;
      rows, failed := SavePage(code, resp.value, rows, failed, insertOk);
      RowsOfStep(code, responses, pageNo);
      pageNo := pageNo + 1;
    }
  }

  /** The inner loop: one `saveFund` per entry of a page, in order, after
      the `rows` attempted so far. A failed insert is only noted; the
      following entries are still inserted. */
  method SavePage(code: string, resp: Response, rows: seq<Row>, failed: seq<Row>, insertOk: nat -> bool)
    returns (rows': seq<Row>, failed': seq<Row>)
    requires failed == FailedInserts(rows, insertOk)
    ensures rows' == rows + PageRows(code, Some(resp))
    ensures failed' == FailedInserts(rows', insertOk)
  {
    rows', failed' := rows, failed;
    var page := PageRows(code, Some(resp));
    var j := 0;
    while j < |page|
      invariant 0 <= j <= |page|
      invariant rows' == rows + page[..j]
      invariant failed' == FailedInserts(rows', insertOk)
    {
      FailedInsertsSnoc(rows', page[j], insertOk);
      SnocSlice(rows, page, j);
      rows' := rows' + [page[j]];
      failed' := failed' + (if insertOk(|rows'| - 1) then [] else [page[j]]);
      j := j + 1;
    }
    assert page[..j] == page;
  }

  lemma SnocSlice<T>(prefix: seq<T>, s: seq<T>, j: nat)
    requires j < |s|
    ensures prefix + s[..j] + [s[j]] == prefix + s[..j + 1]
  {
  }

  lemma FailedInsertsSnoc(rows: seq<Row>, r: Row, insertOk: nat -> bool)
    ensures FailedInserts(rows + [r], insertOk)
      == FailedInserts(rows, insertOk) + (if insertOk(|rows|) then [] else [r])
  {
  }

  lemma RowsOfStep(code: string, responses: seq<Option<Response>>, page: nat)
    requires 1 <= page <= |responses|
    ensures RowsOf(code, responses[..page])
      == RowsOf(code, responses[..page - 1]) + PageRows(code, responses[page - 1])
  {
    assert responses[..page][..page - 1] == responses[..page - 1];
  }

  /** A finished response at page `k + 1` (within the sequence or past it)
      pins the crawled page count to `k` once every earlier page was not
      finished. */
  lemma FirstFinished(responses: seq<Option<Response>>, k: nat)
    requires k <= CrawledPages(responses)
    requires IsFinished(Fetch(responses, k + 1))
    ensures k == CrawledPages(responses)
  {
  }

  /** The number of entries on the pages, missing pages counting none. */
  function EntryCount(pages: seq<Option<Response>>): nat
  {
    if |pages| == 0 then 0
    else EntryCount(pages[..|pages| - 1]) + PageSize(pages[|pages| - 1])
  }

  function PageSize(resp: Option<Response>): nat {
    if resp.None? then 0 else |resp.value.data|
  }

  /** Every inserted row carries the crawled fund code and the "sina" tag,
      and there is one row per entry of the crawled pages. */
  lemma {:induction false} RowsOfShape(code: string, pages: seq<Option<Response>>)
    ensures |RowsOf(code, pages)| == EntryCount(pages)
    ensures forall r :: r in RowsOf(code, pages) ==> r.fundCode == code && r.source == "sina"
  {
    if |pages| > 0 {
      var last := pages[|pages| - 1];
      RowsOfShape(code, pages[..|pages| - 1]);
      forall r | r in PageRows(code, last)
        ensures r.fundCode == code && r.source == "sina"
      {
        var i :| 0 <= i < |PageRows(code, last)| && PageRows(code, last)[i] == r;
      }
    }
  }

  /** The rows whose insert failed are some of the attempted rows; the
      outcome of an insert never changes which rows are attempted. */
  lemma {:induction false} FailedInsertsAreRows(rows: seq<Row>, insertOk: nat -> bool)
    ensures |FailedInserts(rows, insertOk)| <= |rows|
    ensures forall r :: r in FailedInserts(rows, insertOk) ==> r in rows
    ensures (forall i :: 0 <= i < |rows| ==> insertOk(i)) ==> FailedInserts(rows, insertOk) == []
  {
    if |rows| > 0 {
      var init := rows[..|rows| - 1];
      FailedInsertsAreRows(init, insertOk);
      assert rows == init + [rows[|rows| - 1]];
      assert forall r :: r in init ==> r in rows;
    }
  }

  /** A fund already up to date: the first page ends the crawl, nothing is
      inserted and the report says 0 pages. */
  lemma UpToDate(code: string, responses: seq<Option<Response>>)
    requires IsFinished(Fetch(responses, 1))
    ensures CrawledPages(responses) == 0
    ensures RowsOf(code, responses[..CrawledPages(responses)]) == []
  {
  }

  /** Fund "000962" with no stored rows: page 1 holds the entries, page 2 is
      empty, so exactly the entries of page 1 are inserted and the crawl
      reports one page after asking for two. */
  lemma TwoPageCrawl(items: seq<FundDetail>, total1: string, total2: string)
    requires |items| > 0
    ensures var responses := [Some(Response(0, items, total1)), Some(Response(0, [], total2))];
      && CrawledPages(responses) == 1
      && RowsOf("000962", responses[..1]) == DetailRows("000962", items)
      && |RowsOf("000962", responses[..1])| == |items|
  {
  }
}
