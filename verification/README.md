# Expense ledger reporting core, modelled in Dafny

This project models the reporting core of a personal expense ledger written in
Python over SQLite (`main.py`). The `expenses` table is a sequence of
`Expense(id, date, amount, category, description)` rows in rowid order.
Every function of the core is a pure Dafny function over that sequence.

- `wrappers.dfy` (`Wrappers`): `Option`.
- `text.dfy` (`Text`): SQLite's BINARY collation on text (`Less`, `LessEq`).
  It compares code points, and a proper prefix sorts first. The module also
  holds ASCII case folding and the lemmas on the order: total, transitive,
  and concatenation compared field by field.
- `patterns.dfy` (`Patterns`): SQLite's default `LIKE`. `%` matches any run
  of characters, `_` matches one character, and ASCII letters match without
  regard to case. The pattern `'%' + keyword + '%'` of `search_expenses` is
  proved to be a case-folded substring test.
- `dates.dfy` (`Dates`): `datetime.strptime(s, '%Y-%m-%d')` as
  `is_valid_date` calls it. It also holds the proleptic Gregorian calendar,
  the day number of a date (as CPython's `date.toordinal`),
  `strftime('%Y-%m-%d')` and `strftime('%Y-%m')`, and the proof that
  canonical date text sorts in calendar order.
- `store.dfy` (`Store`): `create_table` and `add_expense` as an append-only
  store. The store holds the rows and the AUTOINCREMENT counter
  (`sqlite_sequence`). An insert that fails leaves the store unchanged,
  because `add_expense` catches `sqlite3.Error`.
- `query.dfy` (`Query`): `filter_expenses` and `search_expenses` as
  order-preserving selections.
- `aggregate.dfy` (`Aggregate`): the computations of `summarize_expenses`
  (total, day span, average daily spending, first highest and first lowest
  expense). It also holds the dict accumulation behind
  `visualize_category_distribution` and `visualize_monthly_trends`, and the
  month totals in sorted order.
- `scenarios.dfy` (`Scenarios`): worked examples. These are the ledger that
  the first `main` fills in and the results of its filter and search calls,
  plus summaries and category totals of small ledgers.

The grammar of `strptime` follows CPython's `_strptime`:

- `%Y` is four digits.
- `%m` is `1[0-2]|0[1-9]|[1-9]`.
- `%d` is `3[01]|[12]\d|0[1-9]|[1-9]| [1-9]`. The first alternative that
  matches is taken.
- Text left over is an error.
- The date must exist: year at least 1, month 1 to 12, and the day within the
  month. 29 February exists only in leap years.

So the code accepts `2023-2-5`, although the documented behaviour is to reject
it. The model follows the code and records the consequence under Findings.

Python's `ValueError` from `strptime` inside `summarize_expenses` and
`visualize_monthly_trends` becomes the `MalformedDate(text)` outcome of a
`Report`. It names the first row date, in row order, that does not parse.
Python dicts are sequences of `(key, value)` entries in insertion order.

## Model

| member | source | states |
|---|---|---|
| Dates.IsValidDate | main.py:22-28 | `is_valid_date` holds exactly when `strptime` accepts the text; accepted text has eight to ten characters, starting with four digits and a dash |
| Dates.ParseDate | main.py:25 | whatever `strptime` returns is a real calendar date in the range of Python's `date` |
| Dates.PaddedDateAccepted | main.py:22-28 | a zero-padded `YYYY-MM-DD` string is accepted exactly when it names a real date (month 1-12, day within the month, 29 February only in leap years), and then it parses to the fields it spells |
| Dates.FormatParse | main.py:22-28 | the canonical `YYYY-MM-DD` text of every real date is accepted and parses back to that date (round trip) |
| Dates.UnpaddedDateAccepted | main.py:25 | `strptime` with `%Y-%m-%d` accepts the unpadded `2023-2-5` as 5 February 2023, and that text is not canonical |
| Dates.RejectsFebruaryThirtieth | main.py:22-28 | `2023-02-30` is rejected |
| Dates.RejectsCommonYearLeapDay | main.py:22-28 | `2023-02-29` is rejected because 2023 is not a leap year |
| Dates.AcceptsLeapDay | main.py:22-28 | `2024-02-29` is accepted |
| Dates.RejectsMonthThirteen | main.py:22-28 | `2023-13-01` is rejected |
| Dates.RejectsYearZero | main.py:22-28 | `0000-01-01` is rejected because Python's `date` starts at year 1 |
| Dates.OrdinalOrder | main.py:97-98 | comparing day numbers is comparing dates, and distinct dates have distinct day numbers, so sorting dates and subtracting them is sound |
| Dates.NextDayOrdinal | main.py:98 | the next calendar day has the next day number, so a difference of day numbers counts calendar days like `date_diff.days` |
| Dates.FormatIsCanonical | main.py:22-28 | the `YYYY-MM-DD` text of every real date is canonical: accepted, and spelling back exactly its date |
| Dates.FormatOrder | main.py:66-71 | canonical date text sorts as text exactly when the dates are in calendar order |
| Dates.CanonicalOrder | main.py:66-71 | for canonical date text, the text order SQLite compares agrees with the order of the day numbers |
| Dates.MonthKey | main.py:156 | `strftime('%Y-%m')` of a real date is seven characters with a dash at position four: the first seven characters of the date's `YYYY-MM-DD` text |
| Dates.MonthKeyOrder | main.py:156-164 | `strftime('%Y-%m')` keys sort as text by year, then by month, and two keys are equal exactly when year and month are |
| Dates.MonthKeyIsPrefix | main.py:155-156 | for canonical text, the month key is its first seven characters |
| Store.CreateTable | main.py:6-20 | after `CREATE TABLE IF NOT EXISTS` the table exists; an existing table is untouched, and a new one is empty with a zero counter and satisfies the store invariant |
| Store.CreateTableIdempotent | main.py:11 | creating the table twice is the same as creating it once |
| Store.AddExpense | main.py:31-43 | an insert either fails and leaves the database unchanged (no table, or AUTOINCREMENT out of rowids) or appends exactly one row with the given fields, keeping the earlier rows. The new id exceeds the counter and every existing id, and becomes the new counter |
| Store.AddExpensePreservesValid | main.py:12 | on a valid table an insert keeps ids between 1 and the counter and strictly increasing in row order. It succeeds exactly when the rowid range is not used up, and then it takes the counter plus one |
| Store.FirstIdIsOne | main.py:12 | the first row inserted into a fresh table gets id 1 |
| Query.Select | main.py:76-77 | a `WHERE` clause returns an order-preserving subsequence that holds every row satisfying the condition, as often as the table does, and nothing else |
| Query.FilterExpenses | main.py:59-79 | the filter returns exactly the rows with `date >= start`, `date <= end` (inclusive, text order) and `category ==`, each only when that argument is given, in table order |
| Query.FilterWithoutArguments | main.py:63-74 | with absent or empty arguments the filter returns the whole table, in order |
| Query.FilterSingleDate | main.py:66-71 | equal start and end select exactly the rows carrying that date text |
| Query.FilterByCategoryAfterDates | main.py:66-74 | filtering by dates and then by category is filtering by both at once |
| Query.CanonicalRangeIsCalendarRange | main.py:66-71 | when bounds and row date are canonical, the text bounds are exactly calendar bounds on the day numbers |
| Query.UnpaddedDateMissedByRange | main.py:66-71 | the accepted `2023-2-5` lies between `2023-02-01` and `2023-02-28` on the calendar, yet the filter with those bounds does not return its row |
| Query.SearchExpenses | main.py:81-88 | search returns exactly the rows whose description matches `'%' + keyword + '%'` under `LIKE`, in table order |
| Query.SearchFindsKeyword | main.py:85 | for a keyword without `%` or `_`, search returns exactly the rows whose description contains the keyword, ignoring ASCII case |
| Query.SearchEmptyKeyword | main.py:85 | the empty keyword returns every row, in order |
| Patterns.Like | main.py:85 | SQLite's `LIKE`: `%` absorbs any run of characters, `_` any one character, other characters match up to ASCII case; a pattern without wildcards matches only text of its own length |
| Patterns.LiteralPattern | main.py:85 | a pattern without wildcards matches exactly the text that spells it up to ASCII case |
| Patterns.SearchPattern | main.py:85 | the search pattern is the keyword with a `%` on each side |
| Patterns.SearchPatternIsContainment | main.py:85 | `LIKE '%k%'` holds exactly when `k` occurs in the text up to ASCII case, for `k` free of wildcards |
| Patterns.LeadingPercent | main.py:85 | a leading `%` lets the rest of the pattern match any suffix of the text |
| Patterns.PrefixPattern | main.py:85 | a wildcard-free `k` followed by `%` matches exactly the texts that start with `k` up to case |
| Aggregate.Total | main.py:94 | `sum(expense[2] for expense in expenses)`: the amounts added from zero in row order |
| Aggregate.TotalAppend | main.py:94 | the sum of the amounts of two stretches of rows is the sum of their sums |
| Aggregate.FirstMalformed | main.py:97 | the date list comprehension raises exactly when some row date does not parse, naming the first such date in row order |
| Aggregate.DaySpan | main.py:97-98 | `dates[-1] - dates[0]` of the sorted dates is the largest difference of day numbers between two rows, and is never negative |
| Aggregate.Latest | main.py:97-98 | the last of the sorted day numbers bounds all of them and is one of them |
| Aggregate.Earliest | main.py:97-98 | the first of the sorted day numbers is below all of them and is one of them |
| Aggregate.AverageDaily | main.py:99 | for a positive span the average times the span is the total; otherwise the average is the total |
| Aggregate.ExtremeIndex | main.py:101-103 | `max`/`min` by amount pick a row no other row beats, and every earlier row is strictly beaten by it (the first extreme) |
| Aggregate.Statistics | main.py:96-104 | the statistics hold the day span, the average (total over span, or the total for span 0), the first highest and the first lowest expense |
| Aggregate.Summarize | main.py:94-104 | the total is the sum of the amounts, and 0 with no statistics for no rows. A row date that does not parse yields an error naming the first such date. Otherwise the statistics are those of `Statistics` |
| Aggregate.SingleDateAverage | main.py:98-99 | when every row has the same valid date, the span is 0 and the average is the total |
| Aggregate.ZeroSpanMeansOneDate | main.py:98-99 | a span of 0 means every row falls on the same calendar date |
| Aggregate.AddTo | main.py:132 | `d[k] = d.get(k, 0) + a` keeps the keys and their positions when `k` is present, and appends `(k, a)` otherwise |
| Aggregate.AddToKeys | main.py:132 | the update keeps keys distinct and adds `k` to the key set |
| Aggregate.AddToValue | main.py:132 | the update raises `k`'s value by `a` and leaves every other value alone |
| Aggregate.AddToSum | main.py:132 | the update raises the sum of the values by `a` |
| Aggregate.Group | main.py:128-132 | the accumulated dict has distinct keys, exactly the keys that occur, each with the sum of its amounts, and values summing to the sum of all amounts |
| Aggregate.CategoryTotals | main.py:128-132 | the category dict has one entry per category that occurs. Each entry, and each `get` of a category, holds the total of that category's rows, and the values sum to the total of all rows |
| Aggregate.InsertSorted | main.py:164 | inserting into a sorted list keeps it sorted and adds exactly that element |
| Aggregate.SortStrings | main.py:164 | `sorted` returns the same strings (as a multiset) in ascending text order |
| Aggregate.SortedTotals | main.py:164-165 | the listed keys are strictly ascending, are exactly the keys that occur, and each carries its sum |
| Aggregate.MonthlyTotals | main.py:153-165 | a row date that does not parse yields an error naming the first one. Otherwise the months are strictly ascending, are exactly the months some row falls in, and each carries the total of its rows |
| Aggregate.MonthlyTotalsChronological | main.py:156-164 | months listed earlier are earlier on the calendar: an earlier year, or the same year and an earlier month |
| Aggregate.SummarizeExpenses | main.py:91-104 | the total of a period is the total of the rows the filter returns. The summary has statistics exactly when some row lies in the period. Its highest and lowest rows are the first rows of the period with the largest and smallest amount. Its span is the day distance between the period's earliest and latest dates. Its average is the total over the span, or the total itself when the span is zero. A date error happens exactly when some row of the period has a date that does not parse, and names the first such row |
| Aggregate.CategoryDistribution | main.py:125-136 | the pie chart receives one entry per category occurring in the period. Each entry's value is the total of the period's rows in that category, and the values sum to the period's total |
| Aggregate.MonthlyTrends | main.py:150-165 | the line chart receives strictly ascending months, exactly those of the period's rows. Each month's amount is the total of the period's rows dated in that month. A date error happens exactly when some row of the period has a date that does not parse, and names the first such row |
| Scenarios.SummaryOnOneDate | main.py:94-104 | two expenses of 10 and 20 on one date: total 30, span 0, average 30, highest the 20, lowest the 10 |
| Scenarios.SummaryOverTwoDays | main.py:94-104 | 10 and 20 on 27 and 29 October 2023: total 30, span 2, average 15 |
| Scenarios.CategoryTotalsExample | main.py:128-132 | Food 10, Food 5, Transport 3 group to exactly Food 15 then Transport 3 |
| Scenarios.MainFilterCall | main.py:182-190 | on the six sample rows, the filter from 2023-10-28 to 2023-10-30 for Food returns only the coffee row |
| Scenarios.MainSearchCall | main.py:182-193 | on the six sample rows, searching for `Shirt` returns only the shirt row |

## Left out

- SQLite connections, commits, closing, and the printing of errors and results. The store is an in-memory value. A caught `sqlite3.Error` is modelled only as "store unchanged".
- `view_all_expenses`, `export_to_csv`, and matplotlib rendering: display, file output and a foreign library. Only the totals handed to the charts are modelled.
- The interactive menu loop and its input handling. `main` is defined twice and the second definition shadows the first; only the calls of the first `main` appear, as worked examples on the ledger it builds.
- The six inserts of the first `main` are not chained through `Store.AddExpense`. The sample ledger is written out with the ids AUTOINCREMENT assigns to a fresh table. `Store.CreateTable` starts the counter at 0, and by `Store.AddExpense` and `Store.AddExpensePreservesValid` each insert into a valid table takes the counter plus one as its id and as the new counter.
- Amounts are Dafny `real`, not IEEE doubles: rounding in sums and in the average is not modelled.
- The text of `strptime`'s `ValueError` and its other directives. Only `%Y-%m-%d` on ASCII text is modelled. `\d` in CPython's pattern also matches non-ASCII Unicode digits, and those are not modelled.
- Dates.MonthKey: pads the year to four digits. `strftime('%Y')` for years below 1000 depends on the platform's C library.
- `LIKE` limits (pattern length, `NULL` operands) and `ESCAPE`. Search properties are stated for keywords without `%` and `_`; the matcher itself handles wildcards.
- Query.FilterExpenses: returns rows in rowid order. SQLite does not promise an order without `ORDER BY`, but a plain table scan yields rowid order.
- Queries on a database without the `expenses` table raise in Python. The queries are modelled on the table's rows only.
- Aggregate.Summarize: the total is printed before a malformed date raises. The model returns only the error in that case.
- `sqlite_sequence` being edited by hand, and deletion of rows: the core never deletes.

## Findings

| source | as written | input that shows it | evidently intended | confidence | as-written member | corrected member |
|---|---|---|---|---|---|---|
| main.py:22-28 | `is_valid_date` uses `strptime('%Y-%m-%d')`, which accepts unpadded months and days. Such text is stored, and the text comparison of `filter_expenses` (main.py:66-71) then orders it wrongly | `add_expense("2023-2-5", …)` passes validation, but `filter_expenses("2023-02-01", "2023-02-28")` does not return that row, since `"2023-2-5" > "2023-02-28"` as text | accept only canonical `YYYY-MM-DD` text, as the docstring says. For canonical text the range filter is a calendar range | high; not executed | Query.UnpaddedDateMissedByRange | Query.CanonicalRangeIsCalendarRange, Dates.FormatIsCanonical |
