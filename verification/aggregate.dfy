/**
 * The reporting computations: `summarize_expenses` (total, average daily
 * spending over the calendar span, first highest and first lowest
 * expense), and the totals that `visualize_category_distribution` and
 * `visualize_monthly_trends` hand to the chart library.  Every report
 * starts from `filter_expenses(start_date, end_date)`.
 */
module Aggregate {
  import opened Wrappers
  import opened Text
  import opened Store
  import opened Dates
  import Query

  /** A report, or the first row date that `strptime` rejects (its `ValueError` propagates). */
  datatype Report<T> = Ok(value: T) | MalformedDate(text: string)

  // ---------------------------------------------------------------------
  // Totals
  // ---------------------------------------------------------------------

  /** `sum(expense[2] for expense in expenses)`, added left to right from 0. */
  function Total(rows: seq<Expense>): real
    decreases |rows|
  {
    if |rows| == 0 then 0.0 else Total(rows[..|rows| - 1]) + rows[|rows| - 1].amount
  }

  /** The total of two stretches of rows is the sum of their totals. */
  lemma {:induction false} TotalAppend(a: seq<Expense>, b: seq<Expense>)
    ensures Total(a + b) == Total(a) + Total(b)
    decreases |b|
  {
    if |b| == 0 {
      assert a + b == a;
    } else {
      var b' := b[..|b| - 1];
      var ab := a + b;
      assert ab[..|ab| - 1] == a + b';
      assert ab[|ab| - 1] == b[|b| - 1];
      TotalAppend(a, b');
    }
  }

  lemma TotalCons(e: Expense, rows: seq<Expense>)
    ensures Total([e] + rows) == e.amount + Total(rows)
  {
    TotalAppend([e], rows);
    assert [e][..0] == [];
  }

  // ---------------------------------------------------------------------
  // Dates of the rows
  // ---------------------------------------------------------------------

  predicate AllDatesValid(rows: seq<Expense>) {
    forall i :: 0 <= i < |rows| ==> IsValidDate(rows[i].date)
  }

  /** The first row date, in row order, that `strptime` rejects. */
  function FirstMalformed(rows: seq<Expense>): (r: Option<string>)
    ensures r.None? <==> AllDatesValid(rows)
    ensures r.Some? ==> exists i :: 0 <= i < |rows| && rows[i].date == r.value && !IsValidDate(r.value)
                                    && forall j :: 0 <= j < i ==> IsValidDate(rows[j].date)
    decreases |rows|
  {
    if |rows| == 0 then None
    else if !IsValidDate(rows[0].date) then Some(rows[0].date)
    else
      var r := FirstMalformed(rows[1..]);
      assert forall j :: 0 < j < |rows| ==> rows[j] == rows[1..][j - 1];
      if r.Some? then
        var i :| 0 <= i < |rows[1..]| && rows[1..][i].date == r.value && !IsValidDate(r.value)
                 && forall j :: 0 <= j < i ==> IsValidDate(rows[1..][j].date);
        assert rows[i + 1].date == r.value;
        r
      else
        r
  }

  /** `strptime(date).toordinal()` of a row. */
  function DayOf(e: Expense): int
    requires IsValidDate(e.date)
  {
    Ordinal(ParseDate(e.date).value)
  }

  /** The day numbers of the rows, in row order. */
  function Days(rows: seq<Expense>): (ds: seq<int>)
    requires AllDatesValid(rows)
    ensures |ds| == |rows| && forall i :: 0 <= i < |rows| ==> ds[i] == DayOf(rows[i])
    decreases |rows|
  {
    if |rows| == 0 then [] else Days(rows[..|rows| - 1]) + [DayOf(rows[|rows| - 1])]
  }

  /** The largest of some day numbers. */
  function Latest(ds: seq<int>): (m: int)
    requires |ds| > 0
    ensures forall i :: 0 <= i < |ds| ==> ds[i] <= m
    ensures exists i :: 0 <= i < |ds| && ds[i] == m
    decreases |ds|
  {
    if |ds| == 1 then ds[0]
    else
      var m := Latest(ds[..|ds| - 1]);
      assert forall i :: 0 <= i < |ds| - 1 ==> ds[i] == ds[..|ds| - 1][i];
      if ds[|ds| - 1] > m then ds[|ds| - 1] else m
  }

  /** The smallest of some day numbers. */
  function Earliest(ds: seq<int>): (m: int)
    requires |ds| > 0
    ensures forall i :: 0 <= i < |ds| ==> m <= ds[i]
    ensures exists i :: 0 <= i < |ds| && ds[i] == m
    decreases |ds|
  {
    if |ds| == 1 then ds[0]
    else
      var m := Earliest(ds[..|ds| - 1]);
      assert forall i :: 0 <= i < |ds| - 1 ==> ds[i] == ds[..|ds| - 1][i];
      if ds[|ds| - 1] < m then ds[|ds| - 1] else m
  }

  // ---------------------------------------------------------------------
  // Extremes
  // ---------------------------------------------------------------------

  datatype Extreme = Highest | Lowest

  /** `a` replaces `b` as the running extreme: strictly greater for `max`, strictly smaller for `min`. */
  predicate Beats(which: Extreme, a: real, b: real) {
    if which == Highest then a > b else a < b
  }

  /**
   * `max(rows, key=amount)` or `min(rows, key=amount)`: the position of an
   * extreme amount, the first one when several rows tie.
   */
  function ExtremeIndex(rows: seq<Expense>, which: Extreme): (k: nat)
    requires |rows| > 0
    ensures k < |rows|
    ensures forall i :: 0 <= i < |rows| ==> !Beats(which, rows[i].amount, rows[k].amount)
    ensures forall i :: 0 <= i < k ==> Beats(which, rows[k].amount, rows[i].amount)
    decreases |rows|
  {
    if |rows| == 1 then 0
    else
      var k := ExtremeIndex(rows[..|rows| - 1], which);
      if Beats(which, rows[|rows| - 1].amount, rows[k].amount) then |rows| - 1 else k
  }

  // ---------------------------------------------------------------------
  // summarize_expenses
  // ---------------------------------------------------------------------

  datatype Stats = Stats(spanDays: int, average: real, highest: Expense, lowest: Expense)

  /** The total, and the further statistics only when there are rows. */
  datatype Summary = Summary(total: real, stats: Option<Stats>)

  /** The span between the earliest and latest date covers every pair of row dates and is attained by one. */
  predicate IsDaySpan(rows: seq<Expense>, span: int)
    requires AllDatesValid(rows)
  {
    && (forall i, j :: 0 <= i < |rows| && 0 <= j < |rows| ==> DayOf(rows[i]) - DayOf(rows[j]) <= span)
    && (exists i, j :: 0 <= i < |rows| && 0 <= j < |rows| && DayOf(rows[i]) - DayOf(rows[j]) == span)
  }

  /** `e` is the row `max(rows, key=amount)` picks: a largest amount, and no earlier row has it. */
  predicate IsFirstHighest(rows: seq<Expense>, e: Expense) {
    exists k :: 0 <= k < |rows| && rows[k] == e
                && (forall i :: 0 <= i < |rows| ==> rows[i].amount <= e.amount)
                && (forall i :: 0 <= i < k ==> rows[i].amount < e.amount)
  }

  /** `e` is the row `min(rows, key=amount)` picks: a smallest amount, and no earlier row has it. */
  predicate IsFirstLowest(rows: seq<Expense>, e: Expense) {
    exists k :: 0 <= k < |rows| && rows[k] == e
                && (forall i :: 0 <= i < |rows| ==> e.amount <= rows[i].amount)
                && (forall i :: 0 <= i < k ==> e.amount < rows[i].amount)
  }

  /**
   * The statistics `summarize_expenses` prints after the total: the day
   * span of the sorted dates, the average daily spending (the total when
   * the span is 0), and the highest and lowest expense.
   */
  function Statistics(rows: seq<Expense>): (st: Stats)
    requires |rows| > 0 && AllDatesValid(rows)
    ensures IsDaySpan(rows, st.spanDays) && st.spanDays >= 0
    ensures st.spanDays > 0 ==> st.average == Total(rows) / (st.spanDays as real)
    ensures st.spanDays == 0 ==> st.average == Total(rows)
    ensures IsFirstHighest(rows, st.highest)
    ensures IsFirstLowest(rows, st.lowest)
  {
    var span := DaySpan(rows);
    Stats(span, AverageDaily(Total(rows), span), rows[FirstHighest(rows)], rows[FirstLowest(rows)])
  }

  /** `total / date_diff.days if date_diff.days > 0 else total`. */
  function AverageDaily(total: real, span: int): (average: real)
    ensures span > 0 ==> average * (span as real) == total
    ensures span <= 0 ==> average == total
  {
    if span > 0 then total / (span as real) else total
  }

  /** `dates[-1] - dates[0]` of the sorted dates, in days. */
  function DaySpan(rows: seq<Expense>): (span: int)
    requires |rows| > 0 && AllDatesValid(rows)
    ensures IsDaySpan(rows, span) && span >= 0
  {
    var ds := Days(rows);
    var hi, lo := Latest(ds), Earliest(ds);
    SpanFromDays(rows, ds, hi, lo);
    hi - lo
  }

  lemma SpanFromDays(rows: seq<Expense>, ds: seq<int>, hi: int, lo: int)
    requires AllDatesValid(rows) && |ds| == |rows| && forall i :: 0 <= i < |rows| ==> ds[i] == DayOf(rows[i])
    requires forall i :: 0 <= i < |ds| ==> lo <= ds[i] <= hi
    requires (exists i :: 0 <= i < |ds| && ds[i] == hi) && (exists j :: 0 <= j < |ds| && ds[j] == lo)
    ensures IsDaySpan(rows, hi - lo)
  {
    forall i, j | 0 <= i < |rows| && 0 <= j < |rows|
      ensures DayOf(rows[i]) - DayOf(rows[j]) <= hi - lo
    {
      assert ds[i] <= hi && lo <= ds[j];
    }
    var i :| 0 <= i < |ds| && ds[i] == hi;
    var j :| 0 <= j < |ds| && ds[j] == lo;
    assert DayOf(rows[i]) - DayOf(rows[j]) == hi - lo;
  }

  function FirstHighest(rows: seq<Expense>): (k: nat)
    requires |rows| > 0
    ensures k < |rows| && IsFirstHighest(rows, rows[k])
  {
    ExtremeIndex(rows, Highest)
  }

  function FirstLowest(rows: seq<Expense>): (k: nat)
    requires |rows| > 0
    ensures k < |rows| && IsFirstLowest(rows, rows[k])
  {
    ExtremeIndex(rows, Lowest)
  }

  /**
   * `summarize_expenses` on the rows it fetched: the total, then, for a
   * non-empty set, the statistics; a row date `strptime` rejects aborts it.
   */
  function Summarize(rows: seq<Expense>): (r: Report<Summary>)
    ensures |rows| == 0 ==> r == Ok(Summary(0.0, None))
    ensures r.MalformedDate? <==> !AllDatesValid(rows)
    ensures r.MalformedDate? ==> exists i :: 0 <= i < |rows| && rows[i].date == r.text && !IsValidDate(r.text)
                                             && forall j :: 0 <= j < i ==> IsValidDate(rows[j].date)
    ensures r.Ok? ==> r.value.total == Total(rows) && (r.value.stats.Some? <==> |rows| > 0)
    ensures r.Ok? && |rows| > 0 ==>
              var st := r.value.stats.value;
              && IsDaySpan(rows, st.spanDays) && st.spanDays >= 0
              && (st.spanDays > 0 ==> st.average == Total(rows) / (st.spanDays as real))
              && (st.spanDays == 0 ==> st.average == Total(rows))
              && IsFirstHighest(rows, st.highest)
              && IsFirstLowest(rows, st.lowest)
  {
    var total := Total(rows);
    if |rows| == 0 then Ok(Summary(total, None))
    else
      match FirstMalformed(rows)
      case Some(bad) => MalformedDate(bad)
      case None => Ok(Summary(total, Some(Statistics(rows))))
  }

  /** When every row falls on one date the average falls back to the total. */
  lemma SingleDateAverage(rows: seq<Expense>, d: string)
    requires |rows| > 0 && IsValidDate(d)
    requires forall i :: 0 <= i < |rows| ==> rows[i].date == d
    ensures Summarize(rows).Ok?
    ensures Summarize(rows).value.stats.value.spanDays == 0
    ensures Summarize(rows).value.stats.value.average == Total(rows)
  {
  }

  /** A span of zero days means every row falls on the same calendar date. */
  lemma ZeroSpanMeansOneDate(rows: seq<Expense>)
    requires Summarize(rows).Ok? && |rows| > 0
    requires Summarize(rows).value.stats.value.spanDays == 0
    ensures forall i, j :: 0 <= i < |rows| && 0 <= j < |rows| ==> ParseDate(rows[i].date) == ParseDate(rows[j].date)
  {
    forall i, j | 0 <= i < |rows| && 0 <= j < |rows|
      ensures ParseDate(rows[i].date) == ParseDate(rows[j].date)
    {
      OrdinalOrder(ParseDate(rows[i].date).value, ParseDate(rows[j].date).value);
    }
  }

  // ---------------------------------------------------------------------
  // Grouping into a dict
  // ---------------------------------------------------------------------

  /** A dict in insertion order: key and accumulated amount. */
  type Entry = (string, real)

  function KeySet(g: seq<Entry>): set<string> {
    set j | 0 <= j < |g| :: g[j].0
  }

  predicate DistinctKeys(g: seq<Entry>) {
    forall i, j :: 0 <= i < j < |g| ==> g[i].0 != g[j].0
  }

  /** `d.get(k, 0)`. */
  function ValueOf(g: seq<Entry>, k: string): real
    decreases |g|
  {
    if |g| == 0 then 0.0 else if g[0].0 == k then g[0].1 else ValueOf(g[1..], k)
  }

  /** The sum of the values of a dict, or of the amounts of a run of entries. */
  function SumValues(g: seq<Entry>): real
    decreases |g|
  {
    if |g| == 0 then 0.0 else g[0].1 + SumValues(g[1..])
  }

  /** The sum of the amounts filed under key `k`. */
  function SumFor(es: seq<Entry>, k: string): real
    decreases |es|
  {
    if |es| == 0 then 0.0 else (if es[0].0 == k then es[0].1 else 0.0) + SumFor(es[1..], k)
  }

  /** With distinct keys, `d[k]` of a listed key is the value stored beside it. */
  lemma ValueOfAt(g: seq<Entry>, j: int)
    requires DistinctKeys(g) && 0 <= j < |g|
    ensures ValueOf(g, g[j].0) == g[j].1
  {
    if j > 0 {
      assert g[1..][j - 1] == g[j];
      ValueOfAt(g[1..], j - 1);
    }
  }

  lemma KeySetCons(e: Entry, t: seq<Entry>)
    ensures KeySet([e] + t) == {e.0} + KeySet(t)
  {
    var r := [e] + t;
    forall x | x in KeySet(r) ensures x in {e.0} + KeySet(t) {
      var j :| 0 <= j < |r| && r[j].0 == x;
      if j > 0 { assert t[j - 1].0 == x; }
    }
    forall x | x in KeySet(t) ensures x in KeySet(r) {
      var j :| 0 <= j < |t| && t[j].0 == x;
      assert r[j + 1].0 == x;
    }
    assert r[0].0 == e.0;
  }

  lemma KeySetAppend(t: seq<Entry>, e: Entry)
    ensures KeySet(t + [e]) == KeySet(t) + {e.0}
  {
    var r := t + [e];
    forall x | x in KeySet(r) ensures x in KeySet(t) + {e.0} {
      var j :| 0 <= j < |r| && r[j].0 == x;
      if j < |t| { assert t[j].0 == x; }
    }
    forall x | x in KeySet(t) ensures x in KeySet(r) {
      var j :| 0 <= j < |t| && t[j].0 == x;
      assert r[j].0 == x;
    }
    assert r[|t|].0 == e.0;
  }

  /** `d[k] = d.get(k, 0) + a`: updates the key in place, or appends it. */
  function AddTo(g: seq<Entry>, k: string, a: real): (r: seq<Entry>)
    ensures k in KeySet(g) ==> |r| == |g| && forall j :: 0 <= j < |g| ==> r[j].0 == g[j].0
    ensures k !in KeySet(g) ==> r == g + [(k, a)]
    decreases |g|
  {
    if |g| == 0 then [(k, a)]
    else if g[0].0 == k then [(k, g[0].1 + a)] + g[1..]
    else
      var t := AddTo(g[1..], k, a);
      KeySetCons(g[0], g[1..]);
      assert g == [g[0]] + g[1..];
      [g[0]] + t
  }

  lemma FirstKeyNotInRest(g: seq<Entry>)
    requires DistinctKeys(g) && |g| > 0
    ensures g[0].0 !in KeySet(g[1..])
  {
    forall j | 0 <= j < |g[1..]|
      ensures g[1..][j].0 != g[0].0
    {
      assert g[1..][j] == g[j + 1];
    }
  }

  /** Adding under `k` keeps the keys distinct and adds `k` to them. */
  lemma AddToKeys(g: seq<Entry>, k: string, a: real)
    requires DistinctKeys(g)
    ensures DistinctKeys(AddTo(g, k, a))
    ensures KeySet(AddTo(g, k, a)) == KeySet(g) + {k}
  {
    var r := AddTo(g, k, a);
    if k in KeySet(g) {
      assert KeySet(r) == KeySet(g) by {
        forall x | x in KeySet(r) ensures x in KeySet(g) {
          var j :| 0 <= j < |r| && r[j].0 == x;
          assert g[j].0 == x;
        }
        forall x | x in KeySet(g) ensures x in KeySet(r) {
          var j :| 0 <= j < |g| && g[j].0 == x;
          assert r[j].0 == x;
        }
      }
    } else {
      KeySetAppend(g, (k, a));
      assert DistinctKeys(r) by {
        forall i, j | 0 <= i < j < |r| ensures r[i].0 != r[j].0 {
          if j == |g| {
            assert r[i] == g[i];
          } else {
            assert r[i] == g[i] && r[j] == g[j];
          }
        }
      }
    }
  }

  /** Adding `a` under `k` raises `k`'s value by `a` and leaves every other value alone. */
  lemma {:induction false} AddToValue(g: seq<Entry>, k: string, a: real, x: string)
    requires DistinctKeys(g)
    ensures ValueOf(AddTo(g, k, a), x) == ValueOf(g, x) + (if x == k then a else 0.0)
    decreases |g|
  {
    if |g| > 0 && g[0].0 != k {
      var r := AddTo(g, k, a);
      assert r[0] == g[0] && r[1..] == AddTo(g[1..], k, a);
      assert DistinctKeys(g[1..]) by {
        assert forall i :: 0 <= i < |g[1..]| ==> g[1..][i] == g[i + 1];
      }
      AddToValue(g[1..], k, a, x);
    }
  }

  /** Adding `a` raises the sum of the values by `a`. */
  lemma {:induction false} AddToSum(g: seq<Entry>, k: string, a: real)
    ensures SumValues(AddTo(g, k, a)) == SumValues(g) + a
    decreases |g|
  {
    if |g| == 0 {
    } else if g[0].0 == k {
      var r := AddTo(g, k, a);
      assert r[1..] == g[1..];
    } else {
      var r := AddTo(g, k, a);
      assert r[0] == g[0] && r[1..] == AddTo(g[1..], k, a);
      AddToSum(g[1..], k, a);
    }
  }

  /**
   * The accumulation loop `for ...: d[key] = d.get(key, 0) + amount`,
   * starting from `{}`: one entry per key that occurs, holding the sum of
   * that key's amounts.
   */
  function Group(es: seq<Entry>): (g: seq<Entry>)
    ensures DistinctKeys(g)
    ensures KeySet(g) == KeySet(es)
    ensures forall k :: ValueOf(g, k) == SumFor(es, k)
    ensures SumValues(g) == SumValues(es)
    decreases |es|
  {
    if |es| == 0 then []
    else
      var prefix := es[..|es| - 1];
      var last := es[|es| - 1];
      var h := Group(prefix);
      AddToKeys(h, last.0, last.1);
      AddToSum(h, last.0, last.1);
      assert es == prefix + [last];
      KeySetAppend(prefix, last);
      SumValuesAppend(prefix, last);
      assert forall k :: ValueOf(AddTo(h, last.0, last.1), k) == SumFor(es, k) by {
        forall k ensures ValueOf(AddTo(h, last.0, last.1), k) == SumFor(es, k) {
          AddToValue(h, last.0, last.1, k);
          SumForAppend(prefix, last, k);
        }
      }
      AddTo(h, last.0, last.1)
  }

  lemma {:induction false} SumForAppend(es: seq<Entry>, e: Entry, k: string)
    ensures SumFor(es + [e], k) == SumFor(es, k) + (if e.0 == k then e.1 else 0.0)
    decreases |es|
  {
    if |es| > 0 {
      assert (es + [e])[1..] == es[1..] + [e];
      SumForAppend(es[1..], e, k);
    }
  }

  lemma {:induction false} SumValuesAppend(es: seq<Entry>, e: Entry)
    ensures SumValues(es + [e]) == SumValues(es) + e.1
    decreases |es|
  {
    if |es| > 0 {
      assert (es + [e])[1..] == es[1..] + [e];
      SumValuesAppend(es[1..], e);
    }
  }

  // ---------------------------------------------------------------------
  // Keyed rows
  // ---------------------------------------------------------------------

  /** Each row as the pair (grouping key, amount) the accumulation loop reads. */
  function KeyedEntries(rows: seq<Expense>, key: Expense -> string): (es: seq<Entry>)
    ensures |es| == |rows|
    ensures forall i :: 0 <= i < |rows| ==> es[i] == (key(rows[i]), rows[i].amount)
  {
    seq(|rows|, i requires 0 <= i < |rows| => (key(rows[i]), rows[i].amount))
  }

  lemma KeyedEntriesCons(rows: seq<Expense>, key: Expense -> string)
    requires |rows| > 0
    ensures KeyedEntries(rows, key) == [(key(rows[0]), rows[0].amount)] + KeyedEntries(rows[1..], key)
  {
  }

  /** The condition "the row's key is `k`". */
  function KeyIs(key: Expense -> string, k: string): Expense -> bool {
    e => key(e) == k
  }

  /** Summing the amounts filed under `k` is totalling the rows whose key is `k`. */
  lemma {:induction false} SumForKeyed(rows: seq<Expense>, key: Expense -> string, k: string)
    ensures SumFor(KeyedEntries(rows, key), k) == Total(Query.Select(rows, KeyIs(key, k)))
    decreases |rows|
  {
    if |rows| > 0 {
      KeyedEntriesCons(rows, key);
      SumForKeyed(rows[1..], key, k);
      var rest := Query.Select(rows[1..], KeyIs(key, k));
      if key(rows[0]) == k {
        TotalCons(rows[0], rest);
      }
    }
  }

  /** Summing every amount is totalling every row. */
  lemma {:induction false} SumValuesKeyed(rows: seq<Expense>, key: Expense -> string)
    ensures SumValues(KeyedEntries(rows, key)) == Total(rows)
    decreases |rows|
  {
    if |rows| > 0 {
      var es := KeyedEntries(rows, key);
      KeyedEntriesCons(rows, key);
      assert es[1..] == KeyedEntries(rows[1..], key);
      assert SumValues(es) == rows[0].amount + SumValues(KeyedEntries(rows[1..], key));
      SumValuesKeyed(rows[1..], key);
      TotalCons(rows[0], rows[1..]);
      assert [rows[0]] + rows[1..] == rows;
    }
  }

  lemma KeySetKeyed(rows: seq<Expense>, key: Expense -> string)
    ensures KeySet(KeyedEntries(rows, key)) == set e | e in rows :: key(e)
  {
    var es := KeyedEntries(rows, key);
    forall x | x in KeySet(es) ensures x in set e | e in rows :: key(e) {
      var j :| 0 <= j < |es| && es[j].0 == x;
      assert rows[j] in rows;
    }
    forall x | x in (set e | e in rows :: key(e)) ensures x in KeySet(es) {
      var e :| e in rows && key(e) == x;
      var j :| 0 <= j < |rows| && rows[j] == e;
      assert es[j].0 == x;
    }
  }

  // ---------------------------------------------------------------------
  // visualize_category_distribution
  // ---------------------------------------------------------------------

  function CategoryOf(e: Expense): string {
    e.category
  }

  /**
   * The `category_totals` dict handed to the pie chart, in insertion order:
   * one entry per category that occurs, holding that category's total.
   */
  function CategoryTotals(rows: seq<Expense>): (g: seq<Entry>)
    ensures DistinctKeys(g)
    ensures KeySet(g) == set e | e in rows :: e.category
    ensures forall c :: ValueOf(g, c) == Total(Query.Select(rows, KeyIs(CategoryOf, c)))
    ensures forall j :: 0 <= j < |g| ==> g[j].1 == Total(Query.Select(rows, KeyIs(CategoryOf, g[j].0)))
    ensures SumValues(g) == Total(rows)
  {
    var es := KeyedEntries(rows, CategoryOf);
    KeySetKeyed(rows, CategoryOf);
    SumValuesKeyed(rows, CategoryOf);
    assert forall c :: SumFor(es, c) == Total(Query.Select(rows, KeyIs(CategoryOf, c))) by {
      forall c ensures SumFor(es, c) == Total(Query.Select(rows, KeyIs(CategoryOf, c))) {
        SumForKeyed(rows, CategoryOf, c);
      }
    }
    var g := Group(es);
    forall j | 0 <= j < |g| ensures g[j].1 == ValueOf(g, g[j].0) {
      ValueOfAt(g, j);
    }
    g
  }

  // ---------------------------------------------------------------------
  // sorted()
  // ---------------------------------------------------------------------

  predicate IsSorted(s: seq<string>) {
    forall i, j :: 0 <= i < j < |s| ==> LessEq(s[i], s[j])
  }

  function InsertSorted(x: string, s: seq<string>): (r: seq<string>)
    requires IsSorted(s)
    ensures IsSorted(r)
    ensures multiset(r) == multiset(s) + multiset{x}
    decreases |s|
  {
    if |s| == 0 then [x]
    else if LessEq(x, s[0]) then
      assert forall j :: 0 <= j < |s| ==> LessEq(x, s[j]) by {
        forall j | 0 <= j < |s| ensures LessEq(x, s[j]) {
          LessEqTransitive(x, s[0], s[j]);
        }
      }
      assert s == [s[0]] + s[1..];
      [x] + s
    else
      var t := InsertSorted(x, s[1..]);
      assert s == [s[0]] + s[1..];
      LessTotal(x, s[0]);
      HeadBelowInsert(x, s, t);
      [s[0]] + t
  }

  /** The head of a sorted sequence is at most every element of the rest with a larger `x` put in. */
  lemma HeadBelowInsert(x: string, s: seq<string>, t: seq<string>)
    requires IsSorted(s) && |s| > 0 && Less(s[0], x)
    requires multiset(t) == multiset(s[1..]) + multiset{x}
    ensures forall j :: 0 <= j < |t| ==> LessEq(s[0], t[j])
  {
    forall j | 0 <= j < |t| ensures LessEq(s[0], t[j]) {
      assert t[j] in multiset(t);
      if t[j] != x {
        assert t[j] in multiset(s[1..]);
        var k :| 0 <= k < |s[1..]| && s[1..][k] == t[j];
        assert s[k + 1] == t[j];
      }
    }
  }

  /** `sorted(keys)`: the same strings in ascending order. */
  function SortStrings(s: seq<string>): (r: seq<string>)
    ensures IsSorted(r)
    ensures multiset(r) == multiset(s)
    decreases |s|
  {
    if |s| == 0 then []
    else
      assert s == [s[0]] + s[1..];
      InsertSorted(s[0], SortStrings(s[1..]))
  }

  /** A sorted sequence without repetitions is strictly ascending. */
  lemma SortedDistinctAscending(r: seq<string>)
    requires IsSorted(r)
    requires forall x :: multiset(r)[x] <= 1
    ensures forall i, j :: 0 <= i < j < |r| ==> Less(r[i], r[j])
  {
    forall i, j | 0 <= i < j < |r| ensures Less(r[i], r[j]) {
      assert r == r[..j] + r[j..];
      assert r[i] in r[..j] && r[j] in r[j..];
      assert multiset(r)[r[j]] == multiset(r[..j])[r[j]] + multiset(r[j..])[r[j]];
    }
  }

  /** The keys of a dict, in insertion order. */
  function Keys(g: seq<Entry>): (ks: seq<string>)
    ensures |ks| == |g| && forall i :: 0 <= i < |g| ==> ks[i] == g[i].0
  {
    seq(|g|, i requires 0 <= i < |g| => g[i].0)
  }

  lemma {:induction false} DistinctKeysOnce(g: seq<Entry>)
    requires DistinctKeys(g)
    ensures forall x :: multiset(Keys(g))[x] <= 1
    decreases |g|
  {
    if |g| > 0 {
      assert DistinctKeys(g[1..]) by {
        assert forall i :: 0 <= i < |g[1..]| ==> g[1..][i] == g[i + 1];
      }
      DistinctKeysOnce(g[1..]);
      assert Keys(g) == [g[0].0] + Keys(g[1..]);
      FirstKeyNotInRest(g);
      assert g[0].0 !in Keys(g[1..]) by {
        forall i | 0 <= i < |g[1..]| ensures Keys(g[1..])[i] != g[0].0 {
          assert g[1..][i].0 in KeySet(g[1..]);
        }
      }
    }
  }

  // ---------------------------------------------------------------------
  // visualize_monthly_trends
  // ---------------------------------------------------------------------

  /**
   * `strptime(date).strftime('%Y-%m')` of a row.  It is consulted only once
   * every row date has parsed; the empty string stands for a date that did not.
   */
  function MonthOf(e: Expense): string {
    match ParseDate(e.date)
    case Some(d) => MonthKey(d)
    case None => ""
  }

  /**
   * The month totals handed to the line chart: `sorted(monthly_totals.keys())`
   * paired with their totals.  Months are strictly ascending, exactly the
   * months some row falls in, each with the total of its rows.
   */
  function MonthlyTotals(rows: seq<Expense>): (r: Report<seq<Entry>>)
    ensures r.MalformedDate? <==> !AllDatesValid(rows)
    ensures r.MalformedDate? ==> exists i :: 0 <= i < |rows| && rows[i].date == r.text && !IsValidDate(r.text)
                                             && forall j :: 0 <= j < i ==> IsValidDate(rows[j].date)
    ensures r.Ok? ==> forall i, j :: 0 <= i < j < |r.value| ==> Less(r.value[i].0, r.value[j].0)
    ensures r.Ok? ==> KeySet(r.value) == set e | e in rows :: MonthOf(e)
    ensures r.Ok? ==> forall j :: 0 <= j < |r.value| ==>
                        r.value[j].1 == Total(Query.Select(rows, KeyIs(MonthOf, r.value[j].0)))
  {
    match FirstMalformed(rows)
    case Some(bad) => MalformedDate(bad)
    case None =>
      var es := KeyedEntries(rows, MonthOf);
      var out := SortedTotals(es);
      KeySetKeyed(rows, MonthOf);
      assert forall j :: 0 <= j < |out| ==> out[j].1 == Total(Query.Select(rows, KeyIs(MonthOf, out[j].0))) by {
        forall j | 0 <= j < |out| ensures out[j].1 == Total(Query.Select(rows, KeyIs(MonthOf, out[j].0))) {
          SumForKeyed(rows, MonthOf, out[j].0);
        }
      }
      Ok(out)
  }

  /**
   * Group the entries, then list `sorted(totals.keys())` with their totals:
   * keys strictly ascending, exactly those that occur, each with its sum.
   */
  function SortedTotals(es: seq<Entry>): (out: seq<Entry>)
    ensures forall i, j :: 0 <= i < j < |out| ==> Less(out[i].0, out[j].0)
    ensures KeySet(out) == KeySet(es)
    ensures forall j :: 0 <= j < |out| ==> out[j].1 == SumFor(es, out[j].0)
  {
    var totals := Group(es);
    var months := SortStrings(Keys(totals));
    var out := seq(|months|, i requires 0 <= i < |months| => (months[i], ValueOf(totals, months[i])));
    DistinctKeysOnce(totals);
    SortedDistinctAscending(months);
    SameKeys(totals, months, out);
    out
  }

  /** Entries listed under a permutation of a dict's keys have the dict's key set. */
  lemma SameKeys(g: seq<Entry>, ks: seq<string>, out: seq<Entry>)
    requires multiset(ks) == multiset(Keys(g))
    requires |out| == |ks| && forall j :: 0 <= j < |ks| ==> out[j].0 == ks[j]
    ensures KeySet(out) == KeySet(g)
  {
    forall x ensures x in KeySet(out) <==> x in KeySet(g) {
      assert x in KeySet(out) <==> x in multiset(ks) by {
        if x in multiset(ks) {
          var j :| 0 <= j < |ks| && ks[j] == x;
          assert out[j].0 == x;
        }
      }
      assert x in KeySet(g) <==> x in multiset(Keys(g)) by {
        if x in multiset(Keys(g)) {
          var j :| 0 <= j < |g| && Keys(g)[j] == x;
        }
      }
    }
  }

  /** Consecutive months of the report are in calendar order, by year and then month. */
  lemma MonthlyTotalsChronological(rows: seq<Expense>, i: int, j: int, e1: Expense, e2: Expense)
    requires MonthlyTotals(rows).Ok?
    requires 0 <= i < j < |MonthlyTotals(rows).value|
    requires e1 in rows && MonthOf(e1) == MonthlyTotals(rows).value[i].0
    requires e2 in rows && MonthOf(e2) == MonthlyTotals(rows).value[j].0
    ensures var d1, d2 := ParseDate(e1.date).value, ParseDate(e2.date).value;
            d1.year < d2.year || (d1.year == d2.year && d1.month < d2.month)
  {
    var k1 :| 0 <= k1 < |rows| && rows[k1] == e1;
    var k2 :| 0 <= k2 < |rows| && rows[k2] == e2;
    MonthKeyOrder(ParseDate(e1.date).value, ParseDate(e2.date).value);
  }

  // ---------------------------------------------------------------------
  // The reports over a period
  // ---------------------------------------------------------------------

  /** `summarize_expenses(start_date, end_date)`: the summary of the rows in the period. */
  function SummarizeExpenses(rows: seq<Expense>, start: Option<string>, end: Option<string>): (r: Report<Summary>)
    ensures r.Ok? ==> r.value.total == Total(Query.FilterExpenses(rows, start, end, None))
    ensures var period := Query.FilterExpenses(rows, start, end, None);
            && (r.MalformedDate? <==> !AllDatesValid(period))
            && (r.MalformedDate? ==> exists i :: 0 <= i < |period| && period[i].date == r.text && !IsValidDate(r.text)
                                                 && forall j :: 0 <= j < i ==> IsValidDate(period[j].date))
    ensures var period := Query.FilterExpenses(rows, start, end, None);
            r.Ok? ==> (r.value.stats.Some? <==> |period| > 0)
    ensures var period := Query.FilterExpenses(rows, start, end, None);
            r.Ok? && |period| > 0 ==>
              var st := r.value.stats.value;
              && IsDaySpan(period, st.spanDays) && st.spanDays >= 0
              && (st.spanDays > 0 ==> st.average == Total(period) / (st.spanDays as real))
              && (st.spanDays == 0 ==> st.average == Total(period))
              && IsFirstHighest(period, st.highest)
              && IsFirstLowest(period, st.lowest)
    ensures r.MalformedDate? ==> exists e :: e in rows && Query.InFilter(e, start, end, None) && e.date == r.text
                                             && !IsValidDate(r.text)
    ensures r.Ok? && r.value.stats.Some? ==>
              && r.value.stats.value.highest in rows && Query.InFilter(r.value.stats.value.highest, start, end, None)
              && r.value.stats.value.lowest in rows && Query.InFilter(r.value.stats.value.lowest, start, end, None)
    ensures r.Ok? ==> (r.value.stats.None? <==> forall e :: e in rows ==> !Query.InFilter(e, start, end, None))
  {
    var period := Query.FilterExpenses(rows, start, end, None);
    var r := Summarize(period);
    assert r.Ok? && r.value.stats.Some? ==> r.value.stats.value.highest in period && r.value.stats.value.lowest in period;
    PeriodSummary(rows, start, end, r);
    r
  }

  /** What the summary of the filtered rows says about the rows of the period. */
  lemma PeriodSummary(rows: seq<Expense>, start: Option<string>, end: Option<string>, r: Report<Summary>)
    requires var period := Query.FilterExpenses(rows, start, end, None);
             && (r.Ok? ==> r.value.total == Total(period) && (r.value.stats.Some? <==> |period| > 0))
             && (r.Ok? && r.value.stats.Some? ==> r.value.stats.value.highest in period && r.value.stats.value.lowest in period)
             && (r.MalformedDate? ==> exists i :: 0 <= i < |period| && period[i].date == r.text && !IsValidDate(r.text))
    ensures r.MalformedDate? ==> exists e :: e in rows && Query.InFilter(e, start, end, None) && e.date == r.text
                                             && !IsValidDate(r.text)
    ensures r.Ok? ==> (r.value.stats.None? <==> forall e :: e in rows ==> !Query.InFilter(e, start, end, None))
  {
    var period := Query.FilterExpenses(rows, start, end, None);
    assert |period| == 0 <==> forall e :: e in rows ==> !Query.InFilter(e, start, end, None) by {
      if |period| > 0 {
        assert period[0] in period;
      }
    }
    PeriodError(rows, start, end, r);
  }

  /** The totals `visualize_category_distribution(start_date, end_date)` charts. */
  function CategoryDistribution(rows: seq<Expense>, start: Option<string>, end: Option<string>): (g: seq<Entry>)
    ensures DistinctKeys(g)
    ensures KeySet(g) == set e | e in rows && Query.InFilter(e, start, end, None) :: e.category
    ensures SumValues(g) == Total(Query.FilterExpenses(rows, start, end, None))
    ensures forall j :: 0 <= j < |g| ==>
              g[j].1 == Total(Query.Select(Query.FilterExpenses(rows, start, end, None), KeyIs(CategoryOf, g[j].0)))
  {
    var period := Query.FilterExpenses(rows, start, end, None);
    assert (set e | e in period :: e.category) == set e | e in rows && Query.InFilter(e, start, end, None) :: e.category;
    CategoryTotals(period)
  }

  /** The month totals `visualize_monthly_trends(start_date, end_date)` charts. */
  function MonthlyTrends(rows: seq<Expense>, start: Option<string>, end: Option<string>): (r: Report<seq<Entry>>)
    ensures r.Ok? ==> forall i, j :: 0 <= i < j < |r.value| ==> Less(r.value[i].0, r.value[j].0)
    ensures r.Ok? ==> KeySet(r.value) == set e | e in rows && Query.InFilter(e, start, end, None) :: MonthOf(e)
    ensures r.Ok? ==> forall j :: 0 <= j < |r.value| ==>
                        r.value[j].1 == Total(Query.Select(Query.FilterExpenses(rows, start, end, None), KeyIs(MonthOf, r.value[j].0)))
    ensures r.MalformedDate? ==> exists e :: e in rows && Query.InFilter(e, start, end, None) && e.date == r.text
                                             && !IsValidDate(r.text)
    ensures var period := Query.FilterExpenses(rows, start, end, None);
            && (r.MalformedDate? <==> !AllDatesValid(period))
            && (r.MalformedDate? ==> exists i :: 0 <= i < |period| && period[i].date == r.text && !IsValidDate(r.text)
                                                 && forall j :: 0 <= j < i ==> IsValidDate(period[j].date))
  {
    var period := Query.FilterExpenses(rows, start, end, None);
    PeriodMonths(rows, start, end);
    var r := MonthlyTotals(period);
    PeriodError(rows, start, end, r);
    r
  }

  lemma PeriodMonths(rows: seq<Expense>, start: Option<string>, end: Option<string>)
    ensures (set e | e in Query.FilterExpenses(rows, start, end, None) :: MonthOf(e))
            == set e | e in rows && Query.InFilter(e, start, end, None) :: MonthOf(e)
  {
  }

  /** A date the report names as malformed belongs to a row of the period. */
  lemma PeriodError<T>(rows: seq<Expense>, start: Option<string>, end: Option<string>, r: Report<T>)
    requires var period := Query.FilterExpenses(rows, start, end, None);
             r.MalformedDate? ==> exists i :: 0 <= i < |period| && period[i].date == r.text && !IsValidDate(r.text)
    ensures r.MalformedDate? ==> exists e :: e in rows && Query.InFilter(e, start, end, None) && e.date == r.text
                                             && !IsValidDate(r.text)
  {
    var period := Query.FilterExpenses(rows, start, end, None);
    if r.MalformedDate? {
      var i :| 0 <= i < |period| && period[i].date == r.text && !IsValidDate(r.text);
      assert period[i] in period;
    }
  }

}
