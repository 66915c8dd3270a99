/** Resolving the NAV that applies on a given day: `listToMap` indexes the
    loaded records by their date text, and `queryFundUnitWorth` scans forward
    one calendar day at a time from the wanted date until a record exists,
    giving up once the scan passes "now". */
module NavLookup {
  import opened Wrappers
  import opened CivilDate
  import opened Records

  /** Whether `records[i]` is the last record carrying its date. */
  predicate LastOfItsDate(records: seq<FundWorth>, i: nat)
    requires i < |records|
  {
    forall j :: i < j < |records| ==> records[j].infoDate != records[i].infoDate
  }

  /** `listToMap`: every record stored under its `InfoDate`; a later record
      with the same date overwrites an earlier one. */
  function ListToMap(records: seq<FundWorth>): (m: map<string, FundWorth>)
    ensures m.Keys == set i | 0 <= i < |records| :: records[i].infoDate
    ensures forall i :: 0 <= i < |records| && LastOfItsDate(records, i) ==>
      m[records[i].infoDate] == records[i]
    ensures forall key :: key in m ==> m[key] in records && m[key].infoDate == key
  {
    if |records| == 0 then map[]
    else
      var n := |records| - 1;
      var init := records[..n];
      var last := records[n];
      var m0 := ListToMap(init);
      var m := m0[last.infoDate := last];
      KeysStep(records);
      LastWinsStep(records, m0);
      assert forall r :: r in init ==> r in records;
      m
  }

  lemma LastWinsStep(records: seq<FundWorth>, m0: map<string, FundWorth>)
    requires |records| > 0
    requires var init := records[..|records| - 1];
      forall i :: 0 <= i < |init| && LastOfItsDate(init, i) ==>
        init[i].infoDate in m0 && m0[init[i].infoDate] == init[i]
    ensures var last := records[|records| - 1];
      forall i :: 0 <= i < |records| && LastOfItsDate(records, i) ==>
        m0[last.infoDate := last][records[i].infoDate] == records[i]
  {
    var n := |records| - 1;
    var init := records[..n];
    var last := records[n];
    var m := m0[last.infoDate := last];
    forall i | 0 <= i < |records| && LastOfItsDate(records, i)
      ensures m[records[i].infoDate] == records[i]
    {
      if i < n {
        assert records[n].infoDate != records[i].infoDate;
        assert init[i] == records[i];
        assert LastOfItsDate(init, i);
      }
    }
  }

  lemma KeysStep(records: seq<FundWorth>)
    requires |records| > 0
    ensures var n := |records| - 1;
      (set i | 0 <= i < |records| :: records[i].infoDate)
      == (set i | 0 <= i < n :: records[..n][i].infoDate) + {records[n].infoDate}
  {
  }

  datatype LookupError = NoWorthFound

  /** The day `k` days after `d`. */
  function DaysAfter(d: Date, k: nat): (r: Date)
    requires Valid(d)
    ensures Valid(r) && DayNumber(r) == DayNumber(d) + k
    decreases k
  {
    if k == 0 then d else DaysAfter(NextDay(d), k - 1)
  }

  /** The key probed for the k-th day of a scan starting at `target`. */
  function ProbeKey(target: Date, k: nat): string
    requires Valid(target)
  {
    Format(DaysAfter(target, k))
  }

  /** Whether a scan starting at `target` may look at its k-th day: the target
      itself always, a later day only while it is not after `now`. */
  predicate Probed(target: Date, now: Date, k: nat)
    requires Valid(target) && Valid(now)
  {
    k == 0 || !After(DaysAfter(target, k), now)
  }

  /** `queryFundUnitWorth(date, fundMap)` with the clock reading `now`. */
  function LookupWorth(date: Date, worths: map<string, FundWorth>, now: Date): (r: Result<FundWorth, LookupError>)
    requires Valid(date) && Valid(now)
    ensures Format(date) in worths ==> r == Success(worths[Format(date)])
    ensures r.Success? ==> r.value in worths.Values
    decreases DayNumber(now) - DayNumber(date)
  {
    if Format(date) in worths then Success(worths[Format(date)])
    else
      var next := NextDay(date);
      if After(next, now) then Failure(NoWorthFound)
      else LookupWorth(next, worths, now)
  }

  /** The scan finds the record of the first probed day whose key exists, and
      fails exactly when no probed day has a key. */
  lemma {:induction false} LookupWorthScans(date: Date, worths: map<string, FundWorth>, now: Date)
    requires Valid(date) && Valid(now)
    ensures LookupWorth(date, worths, now).Success? ==>
      exists k: nat :: Probed(date, now, k) && ProbeKey(date, k) in worths
        && LookupWorth(date, worths, now).value == worths[ProbeKey(date, k)]
        && forall j: nat :: j < k ==> ProbeKey(date, j) !in worths
    ensures LookupWorth(date, worths, now).Failure? <==>
      forall k: nat :: Probed(date, now, k) ==> ProbeKey(date, k) !in worths
    decreases DayNumber(now) - DayNumber(date)
  {
    var r := LookupWorth(date, worths, now);
    if Format(date) in worths {
      assert ProbeKey(date, 0) == Format(date);
      assert Probed(date, now, 0);
    } else {
      var next := NextDay(date);
      assert ProbeKey(date, 0) == Format(date);
      forall k: nat | k > 0
        ensures DaysAfter(date, k) == DaysAfter(next, k - 1)
      {
      }
      if After(next, now) {
        forall k: nat | k > 0
          ensures !Probed(date, now, k)
        {
          assert DayNumber(DaysAfter(date, k)) >= DayNumber(next);
        }
      } else {
        LookupWorthScans(next, worths, now);
        if r.Success? {
          var k: nat :| Probed(next, now, k) && ProbeKey(next, k) in worths
            && r.value == worths[ProbeKey(next, k)]
            && forall j: nat :: j < k ==> ProbeKey(next, j) !in worths;
          assert ProbeKey(date, k + 1) == ProbeKey(next, k);
          assert Probed(date, now, k + 1);
          forall j: nat | j < k + 1
            ensures ProbeKey(date, j) !in worths
          {
            if j > 0 {
              assert ProbeKey(date, j) == ProbeKey(next, j - 1);
            }
          }
        }
        forall k: nat | Probed(next, now, k)
          ensures Probed(date, now, k + 1) && ProbeKey(date, k + 1) == ProbeKey(next, k)
        {
        }
        forall k: nat | Probed(date, now, k) && k > 0
          ensures Probed(next, now, k - 1) && ProbeKey(date, k) == ProbeKey(next, k - 1)
        {
        }
      }
    }
  }

  /** With records only for April 11 and 13, 2022, the NAV for the closed
      day April 12 is April 13's. */
  lemma SkipsClosedDay(r11: FundWorth, r13: FundWorth, now: Date)
    requires r11.infoDate == "2022-04-11" && r13.infoDate == "2022-04-13"
    requires Valid(now) && !After(Date(2022, 4, 13), now)
    ensures LookupWorth(Date(2022, 4, 12), ListToMap([r11, r13]), now) == Success(r13)
  {
    AprilRecords(r11, r13);
    assert NextDay(Date(2022, 4, 12)) == Date(2022, 4, 13);
  }

  /** The map of the two April records: the 13th's key holds `r13`, the
      12th has no key. */
  lemma AprilRecords(r11: FundWorth, r13: FundWorth)
    requires r11.infoDate == "2022-04-11" && r13.infoDate == "2022-04-13"
    ensures var worths := ListToMap([r11, r13]);
      && Format(Date(2022, 4, 12)) !in worths
      && Format(Date(2022, 4, 13)) in worths && worths[Format(Date(2022, 4, 13))] == r13
  {
    var records := [r11, r13];
    AprilKeys();
    assert LastOfItsDate(records, 1);
    assert records[1].infoDate in ListToMap(records);
  }
}
