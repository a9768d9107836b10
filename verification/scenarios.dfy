/**
 * Worked examples: the sample ledger that the first `main` fills in with
 * the results of its filter and search calls, and the summaries and
 * category totals of small ledgers worked out by hand.
 */
module Scenarios {
  import opened Wrappers
  import opened Text
  import opened Store
  import opened Dates
  import opened Query
  import opened Patterns
  import opened Aggregate

  lemma TotalOfTwo(rows: seq<Expense>)
    requires |rows| == 2
    ensures Total(rows) == rows[0].amount + rows[1].amount
  {
    assert rows == [rows[0]] + [rows[1]];
    TotalCons(rows[0], [rows[1]]);
    TotalCons(rows[1], []);
  }

  /** Two amounts on one date: total 30, and the average falls back to the total. */
  lemma SummaryOnOneDate(rows: seq<Expense>)
    requires rows == [Expense(1, "2023-10-27", 10.0, "Food", "Lunch"), Expense(2, "2023-10-27", 20.0, "Food", "Coffee")]
    ensures Summarize(rows) == Ok(Summary(30.0, Some(Stats(0, 30.0, rows[1], rows[0]))))
  {
    DayOfLiteral(rows[0], 27);
    SummaryOfTwo(rows, 0);
    TotalOfTwo(rows);
  }

  /** Amounts 10 and 20 two days apart: total 30 over a span of 2 days, average 15. */
  lemma SummaryOverTwoDays(rows: seq<Expense>)
    requires rows == [Expense(1, "2023-10-27", 10.0, "Food", "Lunch"), Expense(2, "2023-10-29", 20.0, "Food", "Coffee")]
    ensures Summarize(rows) == Ok(Summary(30.0, Some(Stats(2, 15.0, rows[1], rows[0]))))
  {
    SummaryTwoDaysApart(rows);
    TotalOfTwo(rows);
    assert 30.0 / 2.0 == 15.0;
  }

  lemma SummaryTwoDaysApart(rows: seq<Expense>)
    requires |rows| == 2 && rows[0].date == "2023-10-27" && rows[1].date == "2023-10-29"
    requires rows[0].amount < rows[1].amount
    ensures Summarize(rows) == Ok(Summary(Total(rows), Some(Stats(2, Total(rows) / 2.0, rows[1], rows[0]))))
  {
    TwoDayGap(rows[0], rows[1]);
    SummaryOfTwo(rows, 2);
    assert (2 as real) == 2.0;
  }

  /** The summary of two valid rows, the second larger and `n` days later. */
  lemma SummaryOfTwo(rows: seq<Expense>, n: int)
    requires |rows| == 2 && IsValidDate(rows[0].date) && IsValidDate(rows[1].date) && n >= 0
    requires DayOf(rows[1]) == DayOf(rows[0]) + n
    requires rows[0].amount < rows[1].amount
    ensures Summarize(rows)
            == Ok(Summary(Total(rows), Some(Stats(n, if n > 0 then Total(rows) / (n as real) else Total(rows), rows[1], rows[0]))))
  {
    BothDatesValid(rows);
    SummaryOfValid(rows);
    StatsOfTwo(rows, n, Statistics(rows));
  }

  lemma BothDatesValid(rows: seq<Expense>)
    requires |rows| == 2 && IsValidDate(rows[0].date) && IsValidDate(rows[1].date)
    ensures AllDatesValid(rows)
  {
    forall i | 0 <= i < |rows|
      ensures IsValidDate(rows[i].date)
    {
      if i == 0 {
        assert rows[i] == rows[0];
      } else {
        assert rows[i] == rows[1];
      }
    }
  }

  /** A non-empty ledger whose dates all parse is summarized by its total and statistics. */
  lemma SummaryOfValid(rows: seq<Expense>)
    requires |rows| > 0 && AllDatesValid(rows)
    ensures Summarize(rows) == Ok(Summary(Total(rows), Some(Statistics(rows))))
  {
  }

  /** Statistics of that shape on two such rows are determined by them. */
  lemma StatsOfTwo(rows: seq<Expense>, n: int, st: Stats)
    requires |rows| == 2 && AllDatesValid(rows) && n >= 0
    requires DayOf(rows[1]) == DayOf(rows[0]) + n
    requires rows[0].amount < rows[1].amount
    requires IsDaySpan(rows, st.spanDays)
    requires st.spanDays > 0 ==> st.average == Total(rows) / (st.spanDays as real)
    requires st.spanDays == 0 ==> st.average == Total(rows)
    requires IsFirstHighest(rows, st.highest) && IsFirstLowest(rows, st.lowest)
    ensures st == Stats(n, if n > 0 then Total(rows) / (n as real) else Total(rows), rows[1], rows[0])
  {
    SpanOfTwo(rows, n, st.spanDays);
    ExtremesOfTwo(rows, st.highest, st.lowest);
  }

  /** Two rows whose dates are `n` days apart span `n` days. */
  lemma SpanOfTwo(rows: seq<Expense>, n: int, span: int)
    requires |rows| == 2 && AllDatesValid(rows) && n >= 0
    requires DayOf(rows[1]) == DayOf(rows[0]) + n
    requires IsDaySpan(rows, span)
    ensures span == n
  {
    var i, j :| 0 <= i < 2 && 0 <= j < 2 && DayOf(rows[i]) - DayOf(rows[j]) == span;
    assert DayOf(rows[1]) - DayOf(rows[0]) <= span;
    assert i == 0 || i == 1;
    assert j == 0 || j == 1;
  }

  /** Of two rows with different amounts, `max` picks the larger and `min` the smaller. */
  lemma ExtremesOfTwo(rows: seq<Expense>, hi: Expense, lo: Expense)
    requires |rows| == 2 && rows[0].amount < rows[1].amount
    requires IsFirstHighest(rows, hi) && IsFirstLowest(rows, lo)
    ensures hi == rows[1] && lo == rows[0]
  {
    var h :| 0 <= h < 2 && rows[h] == hi && forall i :: 0 <= i < 2 ==> rows[i].amount <= hi.amount;
    assert rows[1].amount <= hi.amount;
    var l :| 0 <= l < 2 && rows[l] == lo && forall i :: 0 <= i < 2 ==> lo.amount <= rows[i].amount;
    assert lo.amount <= rows[0].amount;
  }

  lemma TwoDayGap(a: Expense, b: Expense)
    requires a.date == "2023-10-27" && b.date == "2023-10-29"
    ensures IsValidDate(a.date) && IsValidDate(b.date) && DayOf(b) == DayOf(a) + 2
  {
    DayOfLiteral(a, 27);
    DayOfLiteral(b, 29);
    assert DayOf(a) == Ordinal(Date(2023, 10, 27));
    assert DayOf(b) == Ordinal(Date(2023, 10, 29));
    TwoDaysApart();
  }

  lemma TwoDaysApart()
    ensures Ordinal(Date(2023, 10, 29)) == Ordinal(Date(2023, 10, 27)) + 2
  {
    NextDayOrdinal(Date(2023, 10, 27));
    NextDayOrdinal(Date(2023, 10, 28));
  }

  /** The two October dates of the examples parse as the dates they spell. */
  lemma DayOfLiteral(e: Expense, day: int)
    requires (day == 27 && e.date == "2023-10-27") || (day == 29 && e.date == "2023-10-29")
    ensures ParseDate(e.date) == Some(Date(2023, 10, day))
  {
    if day == 27 {
      October27(e.date);
    } else {
      October29(e.date);
    }
  }

  lemma October27(s: string)
    requires s == "2023-10-27"
    ensures ParseDate(s) == Some(Date(2023, 10, 27))
  {
    PaddedLiteral(s);
  }

  lemma October29(s: string)
    requires s == "2023-10-29"
    ensures ParseDate(s) == Some(Date(2023, 10, 29))
  {
    PaddedLiteral(s);
  }

  /** Food 10, Food 5, Transport 3: exactly Food 15 and Transport 3, in that order. */
  lemma CategoryTotalsExample()
    ensures CategoryTotals([Expense(1, "2023-10-27", 10.0, "Food", "Lunch"),
                            Expense(2, "2023-10-28", 5.0, "Food", "Coffee"),
                            Expense(3, "2023-10-28", 3.0, "Transport", "Bus")])
            == [("Food", 15.0), ("Transport", 3.0)]
  {
    var rows := [Expense(1, "2023-10-27", 10.0, "Food", "Lunch"),
                 Expense(2, "2023-10-28", 5.0, "Food", "Coffee"),
                 Expense(3, "2023-10-28", 3.0, "Transport", "Bus")];
    assert KeyedEntries(rows, CategoryOf) == [("Food", 10.0), ("Food", 5.0), ("Transport", 3.0)];
    GroupExample([("Food", 10.0), ("Food", 5.0), ("Transport", 3.0)]);
  }

  /** The dict the accumulation loop builds from the entries of `CategoryTotalsExample`. */
  lemma GroupExample(es: seq<Entry>)
    requires es == [("Food", 10.0), ("Food", 5.0), ("Transport", 3.0)]
    ensures Group(es) == [("Food", 15.0), ("Transport", 3.0)]
  {
    assert es[..2][..1][..0] == [];
    assert Group(es[..1]) == [("Food", 10.0)];
    assert Group(es[..2]) == [("Food", 15.0)];
  }

  // ---------------------------------------------------------------------
  // The ledger that the first `main` builds, and the reports it asks for.
  // ---------------------------------------------------------------------

  /** The six rows of the first `main`, with the ids `AUTOINCREMENT` gives them. */
  function SampleLedger(): seq<Expense> {
    [Expense(1, "2023-10-27", 50.0, "Food", "Lunch"),
     Expense(2, "2023-10-28", 25.0, "Transport", "Bus"),
     Expense(3, "2023-10-29", 10.0, "Food", "Coffee"),
     Expense(4, "2023-10-30", 100.0, "Clothes", "Shirt"),
     Expense(5, "2023-11-15", 75.0, "Food", "Dinner"),
     Expense(6, "2023-11-20", 30.0, "Entertainment", "Movie")]
  }

  /** A row whose id no other row has occurs exactly once. */
  lemma UniqueRow(rows: seq<Expense>, i: int)
    requires 0 <= i < |rows|
    requires forall j :: 0 <= j < |rows| && j != i ==> rows[j].id != rows[i].id
    ensures multiset(rows)[rows[i]] == 1
  {
    assert rows == rows[..i] + [rows[i]] + rows[i + 1..];
    assert rows[i] !in rows[..i];
    assert rows[i] !in rows[i + 1..];
  }

  /**
   * A query result that holds only rows of the table, holds row `i` as often
   * as the table does, and holds no other row, is that one row.
   */
  lemma SingleResult(r: seq<Expense>, rows: seq<Expense>, i: int)
    requires 0 <= i < |rows|
    requires forall j :: 0 <= j < |rows| && j != i ==> rows[j].id != rows[i].id && rows[j] !in r
    requires forall x :: x in r ==> x in rows
    requires rows[i] in r && multiset(r)[rows[i]] == multiset(rows)[rows[i]]
    ensures r == [rows[i]]
  {
    UniqueRow(rows, i);
    forall x
      ensures multiset(r)[x] == multiset{rows[i]}[x]
    {
      if x != rows[i] && x in rows {
        var j :| 0 <= j < |rows| && rows[j] == x;
        assert rows[j] !in r;
      }
    }
    assert multiset(r) == multiset{rows[i]};
    assert |r| == |multiset(r)|;
    assert r[0] in r;
  }

  predicate FilterCall(rows: seq<Expense>, start: Option<string>, end: Option<string>, category: Option<string>) {
    rows == SampleLedger() && start == Some("2023-10-28") && end == Some("2023-10-30") && category == Some("Food")
  }

  /** The sample rows are numbered 1 to 6 in insertion order. */
  lemma SampleIds(rows: seq<Expense>, j: int)
    requires rows == SampleLedger() && 0 <= j < 6
    ensures |rows| == 6 && rows[j].id == j + 1
  {
  }

  /** Which sample rows pass `filter_expenses("2023-10-28", "2023-10-30", "Food")`: only the coffee. */
  lemma FilterCallRow(rows: seq<Expense>, start: Option<string>, end: Option<string>, category: Option<string>, j: int)
    requires FilterCall(rows, start, end, category) && 0 <= j < 6
    ensures |rows| == 6 && (InFilter(rows[j], start, end, category) <==> j == 2)
  {
    var e := rows[j];
    if j == 0 {
      BeforeStart(e.date, start.value);
    } else if j == 2 {
      WithinRange(e.date, start.value, end.value);
    } else if j == 4 || j == 5 {
      AfterEnd(e.date, end.value);
    }
  }

  lemma BeforeStart(d: string, start: string)
    requires start == "2023-10-28" && d == "2023-10-27"
    ensures !LessEq(start, d)
  {
    assert d[..9] == start[..9];
    LessAtFirstDifference(d, start, 9);
  }

  lemma WithinRange(d: string, start: string, end: string)
    requires start == "2023-10-28" && end == "2023-10-30" && d == "2023-10-29"
    ensures LessEq(start, d) && LessEq(d, end)
  {
    assert d[..9] == start[..9];
    LessAtFirstDifference(start, d, 9);
    assert d[..8] == end[..8];
    LessAtFirstDifference(d, end, 8);
  }

  lemma AfterEnd(d: string, end: string)
    requires end == "2023-10-30" && (d == "2023-11-15" || d == "2023-11-20")
    ensures !LessEq(d, end)
  {
    assert d[..6] == end[..6];
    LessAtFirstDifference(end, d, 6);
  }

  /** The filter call of the first `main` returns the single row `(3, "2023-10-29", 10.0, "Food", "Coffee")`. */
  lemma MainFilterCall(rows: seq<Expense>, start: Option<string>, end: Option<string>, category: Option<string>)
    requires FilterCall(rows, start, end, category)
    ensures FilterExpenses(rows, start, end, category) == [rows[2]]
  {
    var r := FilterExpenses(rows, start, end, category);
    FilterCallRow(rows, start, end, category, 2);
    SampleIds(rows, 2);
    forall j | 0 <= j < |rows| && j != 2
      ensures rows[j].id != rows[2].id && rows[j] !in r
    {
      FilterCallRow(rows, start, end, category, j);
      SampleIds(rows, j);
    }
    SingleResult(r, rows, 2);
  }

  predicate SearchCall(rows: seq<Expense>, keyword: string) {
    rows == SampleLedger() && keyword == "Shirt"
  }

  /** Which sample descriptions contain `Shirt`: only the fourth. */
  lemma SearchCallRow(rows: seq<Expense>, keyword: string, j: int)
    requires SearchCall(rows, keyword) && 0 <= j < 6
    ensures |rows| == 6 && (Like(SearchPattern(keyword), rows[j].description) <==> j == 3)
  {
    var d := rows[j].description;
    SearchPatternIsContainment(keyword, d);
    if j == 3 {
      assert OccursAt(d, keyword, 0);
    } else {
      forall i | 0 <= i <= |d| - |keyword|
        ensures !OccursAt(d, keyword, i)
      {
        assert FoldCase(d[i]) != FoldCase(keyword[0]);
      }
    }
  }

  /** `search_expenses("Shirt")` in the first `main` returns the single row `(4, "2023-10-30", 100.0, "Clothes", "Shirt")`. */
  lemma MainSearchCall(rows: seq<Expense>, keyword: string)
    requires SearchCall(rows, keyword)
    ensures SearchExpenses(rows, keyword) == [rows[3]]
  {
    var r := SearchExpenses(rows, keyword);
    SearchCallRow(rows, keyword, 3);
    SampleIds(rows, 3);
    forall j | 0 <= j < |rows| && j != 3
      ensures rows[j].id != rows[3].id && rows[j] !in r
    {
      SearchCallRow(rows, keyword, j);
      SampleIds(rows, j);
    }
    SingleResult(r, rows, 3);
  }
}
