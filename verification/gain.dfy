/** The `/gain/` calculation (`calcGain`): input validation, one load of the
    fund's history, NAV resolution for the end date, and a monthly
    contribution loop from the start date. The float arithmetic on units and
    market value is not modelled; the summary carries the purchases (cursor
    date and the record that priced it) from which Go derives them. */
module Gain {
  import opened Wrappers
  import opened Decimal
  import opened CivilDate
  import opened Records
  import opened FundQuery
  import opened NavLookup

  /** The `/gain/` query parameters; an absent one is "" as `url.Values.Get` gives. */
  datatype GainRequest = GainRequest(code: string, start: string, end: string, amount: string)

  datatype GainError =
    | MissingParam                 // code, start or amount empty
    | BadAmount                    // amount is not a base-10 int64
    | BadEndDate                   // end given but not a "YYYY-MM-DD" date
    | QueryFailed(message: string) // the store reported an error
    | NoData                       // no stored record from start on
    | NoEndWorth                   // no NAV resolvable for the end date
    | LookupFailed(cursor: Date)   // no NAV resolvable for a contribution date

  /** One monthly contribution: the cursor date and the record that priced it. */
  datatype Purchase = Purchase(cursor: Date, worth: FundWorth)

  datatype GainSummary = GainSummary(totalInvest: int, purchases: seq<Purchase>, endWorth: FundWorth)

  /** What a request produced: the statement sent to the store (None when the
      request ended before any load) and the result. */
  datatype GainOutcome = GainOutcome(issued: Option<Query>, result: Result<GainSummary, GainError>)

  /** The first cursor: the parsed start date, or the zero time when the start
      date does not parse (the parse error is discarded). */
  function StartDate(start: string): (d: Date)
    ensures Valid(d)
    ensures Parse(start).Some? ==> d == Parse(start).value
    ensures Parse(start).None? ==> d == ZeroTime
  {
    Parse(start).GetOr(ZeroTime)
  }

  /** The cursor dates the loop visits: the start, then one `AddDate(0, 1, 0)`
      after another while the new cursor is not after the end. */
  function Schedule(cursor: Date, end: Date): (s: seq<Date>)
    requires Valid(cursor) && Valid(end)
    ensures |s| >= 1 && s[0] == cursor
    ensures forall i :: 0 <= i < |s| ==> Valid(s[i])
    decreases DayNumber(end) - DayNumber(cursor)
  {
    var next := AddMonth(cursor);
    if After(next, end) then [cursor] else [cursor] + Schedule(next, end)
  }

  /** The schedule steps by one calendar month each time. */
  lemma {:induction false} ScheduleMonthly(cursor: Date, end: Date)
    requires Valid(cursor) && Valid(end)
    ensures var s := Schedule(cursor, end);
      forall i, j :: 0 <= i && j == i + 1 && j < |s| ==> s[j] == AddMonth(s[i])
    decreases DayNumber(end) - DayNumber(cursor)
  {
    var next := AddMonth(cursor);
    if !After(next, end) {
      ScheduleMonthly(next, end);
      ScheduleStep(cursor, end);
      var s, t := Schedule(cursor, end), Schedule(next, end);
      forall i, j | 0 <= i && j == i + 1 && j < |s|
        ensures s[j] == AddMonth(s[i])
      {
        if i > 0 {
          assert s[i] == t[i - 1] && s[j] == t[j - 1];
        }
      }
    }
  }

  /** Every cursor after the first is not after the end (a cursor equal to
      the end is still visited). */
  lemma {:induction false} ScheduleWithinEnd(cursor: Date, end: Date)
    requires Valid(cursor) && Valid(end)
    ensures var s := Schedule(cursor, end);
      forall i :: 1 <= i < |s| ==> !After(s[i], end)
    decreases DayNumber(end) - DayNumber(cursor)
  {
    var next := AddMonth(cursor);
    if !After(next, end) {
      ScheduleWithinEnd(next, end);
      ScheduleStep(cursor, end);
      var s, t := Schedule(cursor, end), Schedule(next, end);
      forall i | 1 <= i < |s|
        ensures !After(s[i], end)
      {
        assert s[i] == t[i - 1];
      }
    } else {
      assert Schedule(cursor, end) == [cursor];
    }
  }

  /** The loop stops because the step after the last cursor passes the end. */
  lemma {:induction false} ScheduleStops(cursor: Date, end: Date)
    requires Valid(cursor) && Valid(end)
    ensures var s := Schedule(cursor, end);
      After(AddMonth(s[|s| - 1]), end)
    decreases DayNumber(end) - DayNumber(cursor)
  {
    var next := AddMonth(cursor);
    if !After(next, end) {
      ScheduleStops(next, end);
      ScheduleStep(cursor, end);
      LastOfCons(cursor, Schedule(next, end));
    } else {
      assert Schedule(cursor, end) == [cursor];
    }
  }

  /** The contribution loop's outcome: the running int64 total and the
      purchases, or the first cursor whose NAV could not be resolved. */
  datatype LoopResult = Done(total: int, purchases: seq<Purchase>) | Aborted(at: Date)

  /** Whether the NAV of every date in `dates` resolves. */
  predicate AllResolve(dates: seq<Date>, worths: map<string, FundWorth>, now: Date)
    requires Valid(now)
  {
    forall i :: 0 <= i < |dates| ==> Valid(dates[i]) && LookupWorth(dates[i], worths, now).Success?
  }

  /** The purchases priced by resolving each date in turn. */
  predicate PricedAt(purchases: seq<Purchase>, dates: seq<Date>, worths: map<string, FundWorth>, now: Date)
    requires Valid(now)
  {
    && |purchases| == |dates|
    && forall i :: 0 <= i < |dates| ==>
         Valid(dates[i]) && purchases[i].cursor == dates[i]
         && LookupWorth(dates[i], worths, now) == Success(purchases[i].worth)
  }

  lemma AllResolveCons(d: Date, rest: seq<Date>, worths: map<string, FundWorth>, now: Date)
    requires Valid(now)
    ensures AllResolve([d] + rest, worths, now) <==>
      Valid(d) && LookupWorth(d, worths, now).Success? && AllResolve(rest, worths, now)
  {
    var s := [d] + rest;
    if Valid(d) && LookupWorth(d, worths, now).Success? && AllResolve(rest, worths, now) {
      forall i | 0 <= i < |s|
        ensures Valid(s[i]) && LookupWorth(s[i], worths, now).Success?
      {
        if i > 0 {
          assert s[i] == rest[i - 1];
        }
      }
    }
    if AllResolve(s, worths, now) {
      assert s[0] == d;
      forall i | 0 <= i < |rest|
        ensures Valid(rest[i]) && LookupWorth(rest[i], worths, now).Success?
      {
        assert s[i + 1] == rest[i];
      }
    }
  }

  lemma PricedAtCons(p: Purchase, ps: seq<Purchase>, d: Date, ds: seq<Date>,
                     worths: map<string, FundWorth>, now: Date)
    requires Valid(now) && Valid(d)
    requires p.cursor == d && LookupWorth(d, worths, now) == Success(p.worth)
    requires PricedAt(ps, ds, worths, now)
    ensures PricedAt([p] + ps, [d] + ds, worths, now)
  {
    var s, qs := [d] + ds, [p] + ps;
    forall i | 0 <= i < |s|
      ensures Valid(s[i]) && qs[i].cursor == s[i] && LookupWorth(s[i], worths, now) == Success(qs[i].worth)
    {
      if i > 0 {
        assert s[i] == ds[i - 1] && qs[i] == ps[i - 1];
      }
    }
  }

  /** The `for` loop of `calcGain` from `cursor` on, with `total` invested so
      far: resolve the cursor's NAV (abort if none), add the amount with int64
      wrap-around, step one month, stop once the cursor is after the end. */
  function Contribute(cursor: Date, end: Date, worths: map<string, FundWorth>, now: Date,
                      amount: int, total: int): (r: LoopResult)
    requires Valid(cursor) && Valid(end) && Valid(now)
    ensures r.Done? ==> |r.purchases| >= 1 && r.purchases[0].cursor == cursor
    ensures LookupWorth(cursor, worths, now).Failure? ==> r == Aborted(cursor)
    decreases DayNumber(end) - DayNumber(cursor)
  {
    match LookupWorth(cursor, worths, now)
    case Failure(_) => Aborted(cursor)
    case Success(w) =>
      var total' := Wrap64(total + amount);
      var next := AddMonth(cursor);
      if After(next, end) then Done(total', [Purchase(cursor, w)])
      else
        match Contribute(next, end, worths, now, amount, total')
        case Aborted(at) => Aborted(at)
        case Done(t, ps) => Done(t, [Purchase(cursor, w)] + ps)
  }

  /** The loop completes exactly when every scheduled date resolves, and then
      it has made one purchase per scheduled date, priced by that date's NAV. */
  lemma {:induction false} ContributeCompletes(cursor: Date, end: Date, worths: map<string, FundWorth>,
                                               now: Date, amount: int, total: int)
    requires Valid(cursor) && Valid(end) && Valid(now)
    ensures var r := Contribute(cursor, end, worths, now, amount, total);
      && (r.Done? <==> AllResolve(Schedule(cursor, end), worths, now))
      && (r.Done? ==> PricedAt(r.purchases, Schedule(cursor, end), worths, now))
    decreases DayNumber(end) - DayNumber(cursor)
  {
    var s := Schedule(cursor, end);
    var next := AddMonth(cursor);
    match LookupWorth(cursor, worths, now)
    case Failure(_) =>
      assert s == [cursor] + s[1..];
      AllResolveCons(cursor, s[1..], worths, now);
    case Success(w) =>
      if After(next, end) {
        assert s == [cursor] + [];
        AllResolveCons(cursor, [], worths, now);
        PricedAtCons(Purchase(cursor, w), [], cursor, [], worths, now);
      } else {
        var total' := Wrap64(total + amount);
        ContributeCompletes(next, end, worths, now, amount, total');
        ScheduleStep(cursor, end);
        AllResolveCons(cursor, Schedule(next, end), worths, now);
        var rest := Contribute(next, end, worths, now, amount, total');
        if rest.Done? {
          PricedAtCons(Purchase(cursor, w), rest.purchases, cursor, Schedule(next, end), worths, now);
        }
      }
  }

  /** `n` int64 additions of `amount` onto `total`. */
  function AddRepeatedly(total: int, amount: int, n: nat): int
    decreases n
  {
    if n == 0 then total else AddRepeatedly(Wrap64(total + amount), amount, n - 1)
  }

  /** Repeated wrapped additions equal the wrapped product. */
  lemma {:induction false} AddRepeatedlyIsProduct(total: int, amount: int, n: nat)
    requires IsInt64(total)
    ensures AddRepeatedly(total, amount, n) == Wrap64(total + amount * n)
    decreases n
  {
    if n == 0 {
      assert total + amount * n == total;
    } else {
      var t := Wrap64(total + amount);
      AddRepeatedlyIsProduct(t, amount, n - 1);
      assert AddRepeatedly(total, amount, n) == AddRepeatedly(t, amount, n - 1);
      WrapStep(total, amount, n - 1, n);
    }
  }

  /** A completed loop has added the amount once per scheduled date. */
  lemma {:induction false} ContributeTotal(cursor: Date, end: Date, worths: map<string, FundWorth>,
                                           now: Date, amount: int, total: int)
    requires Valid(cursor) && Valid(end) && Valid(now)
    ensures var r := Contribute(cursor, end, worths, now, amount, total);
      r.Done? ==> r.total == AddRepeatedly(total, amount, |Schedule(cursor, end)|)
    decreases DayNumber(end) - DayNumber(cursor)
  {
    var next := AddMonth(cursor);
    if LookupWorth(cursor, worths, now).Success? && !After(next, end) {
      ContributeTotal(next, end, worths, now, amount, Wrap64(total + amount));
      ScheduleStep(cursor, end);
    }
  }

  /** An aborted loop stopped at the first scheduled date whose NAV does not
      resolve. */
  lemma {:induction false} ContributeAborts(cursor: Date, end: Date, worths: map<string, FundWorth>,
                                            now: Date, amount: int, total: int)
    requires Valid(cursor) && Valid(end) && Valid(now)
    ensures var r := Contribute(cursor, end, worths, now, amount, total);
      r.Aborted? ==>
        exists k :: 0 <= k < |Schedule(cursor, end)| && r.at == Schedule(cursor, end)[k]
          && LookupWorth(r.at, worths, now).Failure?
          && AllResolve(Schedule(cursor, end)[..k], worths, now)
    decreases DayNumber(end) - DayNumber(cursor)
  {
    var s := Schedule(cursor, end);
    var next := AddMonth(cursor);
    if LookupWorth(cursor, worths, now).Failure? {
      assert s[0] == cursor && s[..0] == [];
    } else if !After(next, end) {
      var total' := Wrap64(total + amount);
      ContributeAborts(next, end, worths, now, amount, total');
      ScheduleStep(cursor, end);
      var rest := Contribute(next, end, worths, now, amount, total');
      if rest.Aborted? {
        ContributeAbortStep(cursor, end, worths, now, rest.at);
      }
    }
  }

  lemma ContributeAbortStep(cursor: Date, end: Date, worths: map<string, FundWorth>, now: Date, at: Date)
    requires Valid(cursor) && Valid(end) && Valid(now) && !After(AddMonth(cursor), end)
    requires LookupWorth(cursor, worths, now).Success?
    requires Schedule(cursor, end) == [cursor] + Schedule(AddMonth(cursor), end)
    requires var s := Schedule(AddMonth(cursor), end);
      exists k :: 0 <= k < |s| && at == s[k] && LookupWorth(at, worths, now).Failure?
        && AllResolve(s[..k], worths, now)
    ensures var s := Schedule(cursor, end);
      exists k :: 0 <= k < |s| && at == s[k] && LookupWorth(at, worths, now).Failure?
        && AllResolve(s[..k], worths, now)
  {
    var s := Schedule(AddMonth(cursor), end);
    var k :| 0 <= k < |s| && at == s[k] && LookupWorth(at, worths, now).Failure?
        && AllResolve(s[..k], worths, now);
    ConsPrefix(cursor, s, k);
    AllResolveCons(cursor, s[..k], worths, now);
    assert ([cursor] + s)[k + 1] == at;
  }

  lemma LastOfCons<T>(c: T, s: seq<T>)
    requires |s| > 0
    ensures ([c] + s)[|[c] + s| - 1] == s[|s| - 1]
  {
  }

  lemma ConsPrefix<T>(c: T, s: seq<T>, k: nat)
    requires k <= |s|
    ensures ([c] + s)[..k + 1] == [c] + s[..k]
  {
  }

  lemma ScheduleStep(cursor: Date, end: Date)
    requires Valid(cursor) && Valid(end) && !After(AddMonth(cursor), end)
    ensures Schedule(cursor, end) == [cursor] + Schedule(AddMonth(cursor), end)
  {
  }

  /** One more contribution on top of a wrapped running total. */
  lemma WrapStep(total: int, amount: int, n: nat, m: nat)
    requires m == n + 1
    ensures Wrap64(Wrap64(total + amount) + amount * n) == Wrap64(total + amount * m)
  {
    WrapAdd(total + amount, amount * n);
    assert total + amount + amount * n == total + amount * m;
  }

  /** The end date: the parsed `end` parameter, or "now" when it is absent. */
  function EndDate(end: string, now: Date): (r: Option<Date>)
    requires Valid(now)
    ensures r.Some? ==> Valid(r.value)
    ensures |end| == 0 ==> r == Some(now)
    ensures |end| > 0 ==> r == Parse(end)
    ensures |end| > 0 && r.Some? ==> Format(r.value) == end
  {
    if |end| > 0 then
      if Parse(end).Some? then FormatParse(end); Parse(end) else None
    else Some(now)
  }

  /** Everything after validation: the load's result, the end-date NAV and the loop. */
  function Simulate(load: Result<seq<FundWorth>, string>, startDate: Date, endDate: Date, now: Date,
                    amount: int): (r: Result<GainSummary, GainError>)
    requires Valid(startDate) && Valid(endDate) && Valid(now)
    ensures load.Failure? ==> r == Failure(QueryFailed(load.error))
    ensures r.Failure? && r.error.QueryFailed? <==> load.Failure?
    ensures r == Failure(NoData) <==> load.Success? && |load.value| == 0
    ensures r == Failure(NoEndWorth) <==>
      load.Success? && |load.value| > 0 && LookupWorth(endDate, ListToMap(load.value), now).Failure?
    ensures r.Failure? && r.error.LookupFailed? ==>
      load.Success? && |load.value| > 0 && LookupWorth(endDate, ListToMap(load.value), now).Success?
    ensures r.Success? ==> load.Success? && |load.value| > 0
    ensures r.Failure? ==> !IsValidationError(r.error)
  {
    match load
    case Failure(msg) => Failure(QueryFailed(msg))
    case Success(datas) =>
      if |datas| == 0 then Failure(NoData)
      else
        var worths := ListToMap(datas);
        match LookupWorth(endDate, worths, now)
        case Failure(_) => Failure(NoEndWorth)
        case Success(endWorth) =>
          match Contribute(startDate, endDate, worths, now, amount, 0)
          case Aborted(at) => Failure(LookupFailed(at))
          case Done(total, purchases) => Success(GainSummary(total, purchases, endWorth))
  }

  predicate IsValidationError(e: GainError) {
    e == MissingParam || e == BadAmount || e == BadEndDate
  }

  /** What validation hands on: the contribution amount and the two dates. */
  datatype Plan = Plan(amount: int, startDate: Date, endDate: Date)

  /** The checks `calcGain` makes before touching the store, in its order:
      required parameters, the amount, the end date. */
  function Validate(req: GainRequest, now: Date): (v: Result<Plan, GainError>)
    requires Valid(now)
    ensures v.Failure? ==> IsValidationError(v.error)
    ensures v == Failure(MissingParam) <==> |req.code| == 0 || |req.start| == 0 || |req.amount| == 0
    ensures v == Failure(BadAmount) <==>
      |req.code| > 0 && |req.start| > 0 && |req.amount| > 0 && ParseInt64(req.amount).None?
    ensures v == Failure(BadEndDate) <==>
      |req.code| > 0 && |req.start| > 0 && |req.amount| > 0 && ParseInt64(req.amount).Some?
      && |req.end| > 0 && Parse(req.end).None?
    ensures v.Success? ==>
      && Valid(v.value.startDate) && Valid(v.value.endDate)
      && Some(v.value.amount) == ParseInt64(req.amount)
      && Some(v.value.endDate) == EndDate(req.end, now)
      && v.value.startDate == StartDate(req.start)
  {
    if |req.code| == 0 || |req.start| == 0 || |req.amount| == 0 then Failure(MissingParam)
    else match ParseInt64(req.amount)
      case None => Failure(BadAmount)
      case Some(amountVal) =>
        match EndDate(req.end, now)
        case None => Failure(BadEndDate)
        case Some(endDate) => Success(Plan(amountVal, StartDate(req.start), endDate))
  }

  /** `calcGain` for the request `req`, the clock reading `now`, and `load`,
      what the store answers to the one history query. */
  function CalcGain(req: GainRequest, now: Date, load: Result<seq<FundWorth>, string>): (o: GainOutcome)
    requires Valid(now)
    ensures o.issued.None? <==> o.result.Failure? && IsValidationError(o.result.error)
    ensures o.issued.Some? ==> o.issued.value == BuildQuery(req.code, req.start, "")
    ensures o.issued.None? ==>
      Validate(req, now).Failure? && o.result == Failure(Validate(req, now).error)
    ensures o.result.Failure? && o.result.error.QueryFailed? <==>
      Validate(req, now).Success? && load.Failure?
    ensures o.result == Failure(NoData) <==>
      Validate(req, now).Success? && load.Success? && |load.value| == 0
    ensures o.result == Failure(NoEndWorth) <==>
      && Validate(req, now).Success? && load.Success? && |load.value| > 0
      && LookupWorth(Validate(req, now).value.endDate, ListToMap(load.value), now).Failure?
  {
    match Validate(req, now)
    case Failure(e) => GainOutcome(None, Failure(e))
    case Success(plan) =>
      GainOutcome(Some(BuildQuery(req.code, req.start, "")),
                  Simulate(load, plan.startDate, plan.endDate, now, plan.amount))
  }

  /** A successful calculation: validation passed, the store answered with
      at least one record, the end date's NAV resolved, one purchase was made
      per scheduled date (each priced by that date's NAV), and the amount
      invested is the amount times the number of purchases, wrapped to int64. */
  lemma CalcGainSucceeds(req: GainRequest, now: Date, load: Result<seq<FundWorth>, string>)
    requires Valid(now)
    ensures var o := CalcGain(req, now, load);
      o.result.Success? ==>
        && Validate(req, now).Success?
        && var plan := Validate(req, now).value;
           SucceedsWith(load, plan.startDate, plan.endDate, now, plan.amount, o.result.value)
  {
    var o := CalcGain(req, now, load);
    if o.result.Success? {
      var plan := Validate(req, now).value;
      assert o.result == Simulate(load, plan.startDate, plan.endDate, now, plan.amount);
      SimulateSucceeds(load, plan.startDate, plan.endDate, now, plan.amount);
    }
  }

  /** What a successful summary says about the store's answer and the schedule. */
  predicate SucceedsWith(load: Result<seq<FundWorth>, string>, startDate: Date, endDate: Date, now: Date,
                         amount: int, summary: GainSummary)
    requires Valid(startDate) && Valid(endDate) && Valid(now)
  {
    && load.Success? && |load.value| > 0
    && var worths := ListToMap(load.value);
       var schedule := Schedule(startDate, endDate);
       && LookupWorth(endDate, worths, now) == Success(summary.endWorth)
       && PricedAt(summary.purchases, schedule, worths, now)
       && summary.totalInvest == Wrap64(amount * |schedule|)
  }

  lemma SimulateSucceeds(load: Result<seq<FundWorth>, string>, startDate: Date, endDate: Date, now: Date,
                         amount: int)
    requires Valid(startDate) && Valid(endDate) && Valid(now)
    ensures var r := Simulate(load, startDate, endDate, now, amount);
      r.Success? ==> SucceedsWith(load, startDate, endDate, now, amount, r.value)
  {
    var r := Simulate(load, startDate, endDate, now, amount);
    if r.Success? {
      var worths := ListToMap(load.value);
      var endWorth := LookupWorth(endDate, worths, now);
      var loop := Contribute(startDate, endDate, worths, now, amount, 0);
      assert endWorth.Success? && loop.Done?;
      assert r.value == GainSummary(loop.total, loop.purchases, endWorth.value);
      ContributeCompletes(startDate, endDate, worths, now, amount, 0);
      ContributeTotal(startDate, endDate, worths, now, amount, 0);
      TotalFromZero(amount, |Schedule(startDate, endDate)|);
    }
  }

  lemma TotalFromZero(amount: int, n: nat)
    ensures AddRepeatedly(0, amount, n) == Wrap64(amount * n)
  {
    AddRepeatedlyIsProduct(0, amount, n);
    assert 0 + amount * n == amount * n;
  }

  /** A calculation fails with `LookupFailed(at)` only when some scheduled
      date's NAV does not resolve, and `at` is the first such date. */
  lemma CalcGainLookupFails(req: GainRequest, now: Date, load: Result<seq<FundWorth>, string>, at: Date)
    requires Valid(now)
    ensures CalcGain(req, now, load).result == Failure(LookupFailed(at)) ==>
      && Validate(req, now).Success?
      && var plan := Validate(req, now).value;
         FirstUnresolved(load, plan.startDate, plan.endDate, now, at)
  {
    if CalcGain(req, now, load).result == Failure(LookupFailed(at)) {
      var plan := Validate(req, now).value;
      SimulateLookupFails(load, plan.startDate, plan.endDate, now, plan.amount, at);
    }
  }

  /** `at` is the first date of the schedule whose NAV the loaded records
      cannot resolve. */
  predicate FirstUnresolved(load: Result<seq<FundWorth>, string>, startDate: Date, endDate: Date, now: Date,
                            at: Date)
    requires Valid(startDate) && Valid(endDate) && Valid(now)
  {
    && load.Success?
    && var worths := ListToMap(load.value);
       var schedule := Schedule(startDate, endDate);
       exists k :: 0 <= k < |schedule| && schedule[k] == at
         && LookupWorth(at, worths, now).Failure? && AllResolve(schedule[..k], worths, now)
  }

  lemma SimulateLookupFails(load: Result<seq<FundWorth>, string>, startDate: Date, endDate: Date, now: Date,
                            amount: int, at: Date)
    requires Valid(startDate) && Valid(endDate) && Valid(now)
    ensures Simulate(load, startDate, endDate, now, amount) == Failure(LookupFailed(at)) ==>
      FirstUnresolved(load, startDate, endDate, now, at)
  {
    if Simulate(load, startDate, endDate, now, amount) == Failure(LookupFailed(at)) {
      var worths := ListToMap(load.value);
      assert Contribute(startDate, endDate, worths, now, amount, 0) == Aborted(at);
      ContributeAborts(startDate, endDate, worths, now, amount, 0);
    }
  }

  /** A request that fails validation never reaches the store, so its
      outcome is the same whatever the store would have answered. */
  lemma ValidationIgnoresStore(req: GainRequest, now: Date, load1: Result<seq<FundWorth>, string>,
                               load2: Result<seq<FundWorth>, string>)
    requires Valid(now)
    ensures CalcGain(req, now, load1).issued.None? ==> CalcGain(req, now, load1) == CalcGain(req, now, load2)
  {
  }

  /** The amount is any base-10 int64: a zero amount passes validation... */
  lemma ZeroAmountAccepted(code: string, start: string, end: string, now: Date)
    requires Valid(now) && |code| > 0 && |start| > 0 && (|end| == 0 || Parse(end).Some?)
    ensures Validate(GainRequest(code, start, end, "0"), now).Success?
    ensures Validate(GainRequest(code, start, end, "0"), now).value.amount == 0
  {
  }

  /** ... and so does a negative one. */
  lemma NegativeAmountAccepted(code: string, start: string, end: string, now: Date)
    requires Valid(now) && |code| > 0 && |start| > 0 && (|end| == 0 || Parse(end).Some?)
    ensures Validate(GainRequest(code, start, end, "-100"), now).Success?
    ensures Validate(GainRequest(code, start, end, "-100"), now).value.amount == -100
  {
    ParseFormatInt(-100);
    NegativeHundred();
  }

  lemma NegativeHundred()
    ensures FormatInt(-100) == "-100"
  {
  }

  /** A window that is a single date makes exactly one contribution, and so
      does a start date after the end: the loop body runs before the test. */
  lemma SingleContribution(start: Date, end: Date)
    requires Valid(start) && Valid(end) && !After(end, start)
    ensures Schedule(start, end) == [start]
  {
  }

  /** From 2022-01-01 to 2022-03-01 the loop buys on the first of January,
      February and March: the end date itself is included. */
  lemma ThreeMonthSchedule()
    ensures Schedule(Date(2022, 1, 1), Date(2022, 3, 1))
      == [Date(2022, 1, 1), Date(2022, 2, 1), Date(2022, 3, 1)]
  {
  }
}
