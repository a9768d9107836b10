/**
 * Retrieval over the rows of the `expenses` table: `filter_expenses`
 * (optional inclusive date bounds compared as text, exact category) and
 * `search_expenses` (`description LIKE '%keyword%'`).  Both return rows in
 * table order.
 */
module Query {
  import opened Wrappers
  import opened Text
  import opened Store
  import opened Patterns
  import Dates

  /** `a` can be obtained from `b` by deleting elements. */
  predicate IsSubsequence(a: seq<Expense>, b: seq<Expense>)
    decreases |b|
  {
    if |a| == 0 then true
    else if |b| == 0 then false
    else (a[0] == b[0] && IsSubsequence(a[1..], b[1..])) || IsSubsequence(a, b[1..])
  }

  /**
   * The rows a `WHERE` clause keeps: an order-preserving selection holding
   * every row that satisfies `p`, as many times as it occurs, and nothing else.
   */
  function Select(xs: seq<Expense>, p: Expense -> bool): (r: seq<Expense>)
    ensures |r| <= |xs|
    ensures forall x :: x in r <==> x in xs && p(x)
    ensures forall x :: p(x) ==> multiset(r)[x] == multiset(xs)[x]
    ensures IsSubsequence(r, xs)
    decreases |xs|
  {
    if |xs| == 0 then []
    else
      assert xs == [xs[0]] + xs[1..];
      var rest := Select(xs[1..], p);
      if p(xs[0]) then [xs[0]] + rest else rest
  }

  /** A condition every row satisfies keeps the whole table. */
  lemma {:induction false} SelectAll(xs: seq<Expense>, p: Expense -> bool)
    requires forall x :: x in xs ==> p(x)
    ensures Select(xs, p) == xs
    decreases |xs|
  {
    if |xs| > 0 {
      SelectAll(xs[1..], p);
    }
  }

  /** Two conditions applied one after the other select what their conjunction selects. */
  lemma {:induction false} SelectSelect(xs: seq<Expense>, p: Expense -> bool, q: Expense -> bool, both: Expense -> bool)
    requires forall x :: both(x) == (p(x) && q(x))
    ensures Select(Select(xs, p), q) == Select(xs, both)
    decreases |xs|
  {
    if |xs| > 0 {
      SelectSelect(xs[1..], p, q, both);
    }
  }

  // ---------------------------------------------------------------------
  // filter_expenses
  // ---------------------------------------------------------------------

  /** An argument constrains the query only when it is present and non-empty (Python truthiness). */
  predicate Given(arg: Option<string>) {
    arg.Some? && |arg.value| > 0
  }

  /** The `WHERE 1=1 AND date >= ? AND date <= ? AND category = ?` clause, each part only when given. */
  predicate InFilter(e: Expense, start: Option<string>, end: Option<string>, category: Option<string>) {
    && (Given(start) ==> LessEq(start.value, e.date))
    && (Given(end) ==> LessEq(e.date, end.value))
    && (Given(category) ==> e.category == category.value)
  }

  function FilterExpenses(rows: seq<Expense>, start: Option<string>, end: Option<string>, category: Option<string>): (r: seq<Expense>)
    ensures forall e :: e in r <==>
              && e in rows
              && (Given(start) ==> LessEq(start.value, e.date))
              && (Given(end) ==> LessEq(e.date, end.value))
              && (Given(category) ==> e.category == category.value)
    ensures forall e :: InFilter(e, start, end, category) ==> multiset(r)[e] == multiset(rows)[e]
    ensures IsSubsequence(r, rows)
  {
    Select(rows, e => InFilter(e, start, end, category))
  }

  /** With no argument (or only empty ones) the filter returns the whole table, in order. */
  lemma FilterWithoutArguments(rows: seq<Expense>, start: Option<string>, end: Option<string>, category: Option<string>)
    requires !Given(start) && !Given(end) && !Given(category)
    ensures FilterExpenses(rows, start, end, category) == rows
  {
    SelectAll(rows, e => InFilter(e, start, end, category));
  }

  /** The bounds are inclusive: equal start and end select exactly the rows of that date. */
  lemma FilterSingleDate(rows: seq<Expense>, d: string)
    requires |d| > 0
    ensures forall e :: e in FilterExpenses(rows, Some(d), Some(d), None) <==> e in rows && e.date == d
  {
    forall e | e in rows && LessEq(d, e.date) && LessEq(e.date, d)
      ensures e.date == d
    {
      LessEqAntisymmetric(d, e.date);
    }
  }

  /** Filtering by dates and then by category is filtering by both at once. */
  lemma FilterByCategoryAfterDates(rows: seq<Expense>, start: Option<string>, end: Option<string>, category: Option<string>)
    ensures FilterExpenses(FilterExpenses(rows, start, end, None), None, None, category)
            == FilterExpenses(rows, start, end, category)
  {
    SelectSelect(rows, e => InFilter(e, start, end, None), e => InFilter(e, None, None, category),
                 e => InFilter(e, start, end, category));
  }

  /**
   * When the bounds and the row's date are canonical `YYYY-MM-DD` text, the
   * textual bounds are calendar bounds on the day numbers.
   */
  lemma CanonicalRangeIsCalendarRange(e: Expense, start: string, end: string)
    requires Dates.IsCanonicalDate(start) && Dates.IsCanonicalDate(end) && Dates.IsCanonicalDate(e.date)
    ensures InFilter(e, Some(start), Some(end), None) <==>
            && Dates.Ordinal(Dates.ParseDate(start).value) <= Dates.Ordinal(Dates.ParseDate(e.date).value)
            && Dates.Ordinal(Dates.ParseDate(e.date).value) <= Dates.Ordinal(Dates.ParseDate(end).value)
  {
    Dates.CanonicalOrder(start, e.date);
    Dates.CanonicalOrder(e.date, end);
    Dates.OrdinalOrder(Dates.ParseDate(start).value, Dates.ParseDate(e.date).value);
    Dates.OrdinalOrder(Dates.ParseDate(e.date).value, Dates.ParseDate(end).value);
  }

  /**
   * `is_valid_date` lets `2023-2-5` through, yet a February range filter
   * does not return that row: `"2023-2-5" > "2023-02-28"` as text, although
   * 5 February lies between the bounds on the calendar.
   */
  lemma UnpaddedDateMissedByRange(e: Expense, start: string, end: string)
    requires e.date == "2023-2-5" && start == "2023-02-01" && end == "2023-02-28"
    ensures Dates.IsValidDate(start) && Dates.IsValidDate(e.date) && Dates.IsValidDate(end)
    ensures Dates.Before(Dates.ParseDate(start).value, Dates.ParseDate(e.date).value)
    ensures Dates.Before(Dates.ParseDate(e.date).value, Dates.ParseDate(end).value)
    ensures FilterExpenses([e], Some(start), Some(end), None) == []
  {
    Dates.UnpaddedDateBetweenBounds(e.date, start, end);
    AfterTextBound(e.date, end);
    NothingInRange([e], Some(start), Some(end));
  }

  lemma AfterTextBound(d: string, end: string)
    requires d == "2023-2-5" && end == "2023-02-28"
    ensures !LessEq(d, end)
  {
    assert d[..5] == end[..5];
    LessAtFirstDifference(end, d, 5);
  }

  /** A filter that no row passes returns nothing. */
  lemma NothingInRange(rows: seq<Expense>, start: Option<string>, end: Option<string>)
    requires forall i :: 0 <= i < |rows| ==> !InFilter(rows[i], start, end, None)
    ensures FilterExpenses(rows, start, end, None) == []
  {
    var r := FilterExpenses(rows, start, end, None);
    forall x ensures multiset(r)[x] == 0 {
      if x in rows {
        var i :| 0 <= i < |rows| && rows[i] == x;
      }
    }
    assert multiset(r) == multiset{};
  }


  // ---------------------------------------------------------------------
  // search_expenses
  // ---------------------------------------------------------------------

  function SearchExpenses(rows: seq<Expense>, keyword: string): (r: seq<Expense>)
    ensures forall e :: e in r <==> e in rows && Like(SearchPattern(keyword), e.description)
    ensures forall e: Expense :: Like(SearchPattern(keyword), e.description) ==> multiset(r)[e] == multiset(rows)[e]
    ensures IsSubsequence(r, rows)
  {
    Select(rows, (e: Expense) => Like(SearchPattern(keyword), e.description))
  }

  /**
   * For a keyword without `%` or `_`, search returns exactly the rows whose
   * description contains the keyword, ignoring ASCII case.
   */
  lemma SearchFindsKeyword(rows: seq<Expense>, keyword: string)
    requires NoWildcards(keyword)
    ensures forall e :: e in SearchExpenses(rows, keyword) <==> e in rows && ContainsFolded(e.description, keyword)
  {
    forall e: Expense {
      SearchPatternIsContainment(keyword, e.description);
    }
  }

  /** The empty keyword returns every row, in order. */
  lemma SearchEmptyKeyword(rows: seq<Expense>)
    ensures SearchExpenses(rows, "") == rows
  {
    forall e | e in rows {
      EmptyKeywordMatchesAll(e.description);
    }
    SelectAll(rows, (e: Expense) => Like(SearchPattern(""), e.description));
  }
}
