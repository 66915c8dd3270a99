/** The SQL text and bind parameters `queryFund` sends to the store: the fund
    code filter always, the inclusive date bounds only when given, ascending
    by date. */
module FundQuery {

  datatype Query = Query(sql: string, params: seq<string>)

  // The statement text of `queryFund`, cut into short literals: the verifier
  // cannot check character facts about one long literal, so each clause is
  // its text up to the placeholder, then the placeholder.
  const SelectHead: string := SelectColumns + SelectWorths + WhereCode
  const SelectColumns: string := SelectIds + SelectDates
  const SelectIds: string := "select id, " + "fund_code " + "FundCode, "
  const SelectDates: string := "info_date " + "InfoDate, "
  const SelectWorths: string := SelectUnit + SelectTotal
  const SelectUnit: string := "unit_worth " + "UnitWorth, "
  const SelectTotal: string := "total_worth " + "TotalWorth "
  const WhereCode: string := "from " + "fund_worth " + "where " + "fund_code="
  const FromHead: string := " and info_date " + ">= "
  const ToHead: string := " and info_date " + "<= "
  const SelectClause: string := SelectHead + "?"
  const FromFilter: string := FromHead + "?"
  const ToFilter: string := ToHead + "?"
  const OrderClause: string := " order by " + "info_date " + "asc"

  /** Number of occurrences of `c` in `s`; for '?' the number of placeholders. */
  function Occurrences(c: char, s: string): nat {
    if |s| == 0 then 0 else Occurrences(c, s[..|s| - 1]) + (if s[|s| - 1] == c then 1 else 0)
  }

  lemma {:induction false} OccurrencesConcat(c: char, a: string, b: string)
    ensures Occurrences(c, a + b) == Occurrences(c, a) + Occurrences(c, b)
    decreases |b|
  {
    if |b| == 0 {
      assert a + b == a;
    } else {
      assert (a + b)[..|a + b| - 1] == a + b[..|b| - 1];
      OccurrencesConcat(c, a, b[..|b| - 1]);
    }
  }

  lemma {:induction false} OccurrencesAbsent(c: char, s: string)
    requires c !in s
    ensures Occurrences(c, s) == 0
  {
    if |s| > 0 {
      assert s[|s| - 1] in s;
      assert forall x :: x in s[..|s| - 1] ==> x in s;
      OccurrencesAbsent(c, s[..|s| - 1]);
    }
  }

  // Character facts about the fixed clause texts: '?' occurs only as the
  // placeholders, only the lower-bound filter contains '>' and only the
  // upper-bound filter contains '<'.

  lemma SelectCharacters()
    ensures '?' !in SelectHead && '>' !in SelectClause && '<' !in SelectClause
  {
    ColumnCharacters();
    WorthCharacters();
    WhereCharacters();
  }

  lemma ColumnCharacters()
    ensures '?' !in SelectColumns && '>' !in SelectColumns && '<' !in SelectColumns
  {
    IdCharacters();
  }

  lemma IdCharacters()
    ensures '?' !in SelectIds && '>' !in SelectIds && '<' !in SelectIds
  {
  }

  lemma WorthCharacters()
    ensures '?' !in SelectWorths && '>' !in SelectWorths && '<' !in SelectWorths
  {
    UnitCharacters();
  }

  lemma UnitCharacters()
    ensures '?' !in SelectUnit && '>' !in SelectUnit && '<' !in SelectUnit
  {
  }

  lemma WhereCharacters()
    ensures '?' !in WhereCode && '>' !in WhereCode && '<' !in WhereCode
  {
  }

  lemma FilterCharacters()
    ensures '?' !in FromHead && '>' in FromFilter && '<' !in FromFilter
    ensures '?' !in ToHead && '<' in ToFilter && '>' !in ToFilter
  {
  }

  lemma OrderCharacters()
    ensures '?' !in OrderClause && '>' !in OrderClause && '<' !in OrderClause
  {
  }

  lemma Placeholder(head: string)
    requires '?' !in head
    ensures Occurrences('?', head + "?") == 1
  {
    OccurrencesAbsent('?', head);
    OccurrencesConcat('?', head, "?");
  }

  /** The bind list appended for an optional bound: the value when non-empty. */
  function Optional(v: string): seq<string> {
    if |v| > 0 then [v] else []
  }

  predicate StartsWith(s: string, prefix: string) {
    |prefix| <= |s| && s[..|prefix|] == prefix
  }

  predicate EndsWith(s: string, suffix: string) {
    |suffix| <= |s| && s[|s| - |suffix|..] == suffix
  }

  /** `queryFund`'s statement for (code, fromDate, toDate). */
  function BuildQuery(code: string, fromDate: string, toDate: string): (q: Query)
    ensures StartsWith(q.sql, SelectClause) && EndsWith(q.sql, OrderClause)
    ensures q.params == [code] + Optional(fromDate) + Optional(toDate)
    ensures Occurrences('?', q.sql) == |q.params|
    ensures '>' in q.sql <==> |fromDate| > 0
    ensures '<' in q.sql <==> |toDate| > 0
    ensures |fromDate| > 0 ==> StartsWith(q.sql[|SelectClause|..], FromFilter)
    ensures |toDate| > 0 ==> EndsWith(q.sql, ToFilter + OrderClause)
    ensures |fromDate| == 0 && |toDate| == 0 ==> q.sql == SelectClause + OrderClause
    ensures |q.sql| == |SelectClause| + (if |fromDate| > 0 then |FromFilter| else 0)
      + (if |toDate| > 0 then |ToFilter| else 0) + |OrderClause|
  {
    var sql := SelectClause + (if |fromDate| > 0 then FromFilter else "")
      + (if |toDate| > 0 then ToFilter else "") + OrderClause;
    QueryShape(fromDate, toDate, sql);
    QueryLayout(fromDate, toDate, sql);
    Query(sql, [code] + Optional(fromDate) + Optional(toDate))
  }

  lemma QueryLayout(fromDate: string, toDate: string, sql: string)
    requires sql == SelectClause + (if |fromDate| > 0 then FromFilter else "")
      + (if |toDate| > 0 then ToFilter else "") + OrderClause
    ensures StartsWith(sql, SelectClause) && EndsWith(sql, OrderClause)
    ensures |fromDate| > 0 ==> StartsWith(sql[|SelectClause|..], FromFilter)
    ensures |toDate| > 0 ==> EndsWith(sql, ToFilter + OrderClause)
  {
    var f := if |fromDate| > 0 then FromFilter else "";
    var t := if |toDate| > 0 then ToFilter else "";
    Layout(SelectClause, f, t, OrderClause);
  }

  /** Where the four pieces of a concatenation sit in it. */
  lemma Layout(a: string, f: string, t: string, o: string)
    ensures StartsWith(a + f + t + o, a) && EndsWith(a + f + t + o, o)
    ensures StartsWith((a + f + t + o)[|a|..], f)
    ensures EndsWith(a + f + t + o, t + o)
  {
    assert a + f + t + o == (a + f) + (t + o);
  }

  lemma QueryShape(fromDate: string, toDate: string, sql: string)
    requires sql == SelectClause + (if |fromDate| > 0 then FromFilter else "")
      + (if |toDate| > 0 then ToFilter else "") + OrderClause
    ensures Occurrences('?', sql) == 1 + |Optional(fromDate)| + |Optional(toDate)|
    ensures '>' in sql <==> |fromDate| > 0
    ensures '<' in sql <==> |toDate| > 0
  {
    var f := if |fromDate| > 0 then FromFilter else "";
    var t := if |toDate| > 0 then ToFilter else "";
    SelectCharacters();
    FilterCharacters();
    OrderCharacters();
    Placeholder(SelectHead);
    Placeholder(FromHead);
    Placeholder(ToHead);
    OccurrencesAbsent('?', OrderClause);
    OccurrencesConcat('?', SelectClause, f);
    OccurrencesConcat('?', SelectClause + f, t);
    OccurrencesConcat('?', SelectClause + f + t, OrderClause);
  }
}
