/**
 * Calendar dates of the ledger.  `ParseDate` is what `is_valid_date` and
 * the aggregation code get from `datetime.strptime(text, '%Y-%m-%d')`: the
 * directive grammar of CPython's `_strptime` (restricted to ASCII digits)
 * followed by the range checks of the `date` constructor.  `Ordinal` is the
 * proleptic Gregorian day number that `date.toordinal()` returns, so the
 * difference of two ordinals is the `.days` of a date difference.
 */
module Dates {
  import opened Wrappers
  import opened Text

  datatype Date = Date(year: int, month: int, day: int)

  const MinYear: int := 1
  const MaxYear: int := 9999

  predicate IsLeapYear(y: int) {
    y % 4 == 0 && (y % 100 != 0 || y % 400 == 0)
  }

  /** Month lengths of a common year, January first. */
  const MonthLengths: seq<int> := [31, 28, 31, 30, 31, 30, 31, 31, 30, 31, 30, 31]

  /** Days of the year before the first of each month, in a common year. */
  const DaysBeforeMonthTable: seq<int> := [0, 31, 59, 90, 120, 151, 181, 212, 243, 273, 304, 334]

  function DaysInMonth(y: int, m: int): (n: int)
    requires 1 <= m <= 12
    ensures 28 <= n <= 31
    ensures m == 2 ==> (n == 29 <==> IsLeapYear(y))
  {
    if m == 2 && IsLeapYear(y) then 29 else MonthLengths[m - 1]
  }

  /** A real day of the proleptic Gregorian calendar in the range of Python's `date`. */
  predicate IsCalendarDate(d: Date) {
    && MinYear <= d.year <= MaxYear
    && 1 <= d.month <= 12
    && 1 <= d.day <= DaysInMonth(d.year, d.month)
  }

  /** Chronological order of year, then month, then day. */
  predicate Before(d1: Date, d2: Date) {
    || d1.year < d2.year
    || (d1.year == d2.year && d1.month < d2.month)
    || (d1.year == d2.year && d1.month == d2.month && d1.day < d2.day)
  }

  // ---------------------------------------------------------------------
  // Day numbers
  // ---------------------------------------------------------------------

  function DaysBeforeYear(y: int): int
    requires y >= 1
  {
    var p := y - 1;
    p * 365 + p / 4 - p / 100 + p / 400
  }

  function DaysBeforeMonth(y: int, m: int): int
    requires 1 <= m <= 12
  {
    DaysBeforeMonthTable[m - 1] + (if m > 2 && IsLeapYear(y) then 1 else 0)
  }

  /** Day number of a date, 0001-01-01 being day 1. */
  function Ordinal(d: Date): int
    requires IsCalendarDate(d)
  {
    DaysBeforeYear(d.year) + DaysBeforeMonth(d.year, d.month) + d.day
  }

  /** A year adds 366 days when it is a leap year and 365 otherwise. */
  lemma DaysBeforeNextYear(y: int)
    requires y >= 1
    ensures DaysBeforeYear(y + 1) == DaysBeforeYear(y) + (if IsLeapYear(y) then 366 else 365)
  {
    var p := y - 1;
    assert DaysBeforeYear(y + 1) == y * 365 + y / 4 - y / 100 + y / 400;
    assert DaysBeforeYear(y) == p * 365 + p / 4 - p / 100 + p / 400;
    assert y * 365 == p * 365 + 365;
    QuotientStep4(y);
    QuotientStep100(y);
    QuotientStep400(y);
    DivisibilityChain(y);
  }

  /** A multiple of 400 is a multiple of 100, and a multiple of 100 is a multiple of 4. */
  lemma DivisibilityChain(y: int)
    ensures y % 400 == 0 ==> y % 100 == 0
    ensures y % 100 == 0 ==> y % 4 == 0
  {
    if y % 400 == 0 {
      MultipleOfMultiple(y, 100, 4);
    }
    if y % 100 == 0 {
      MultipleOfMultiple(y, 4, 25);
    }
  }

  /** A multiple of `a * b` is a multiple of `a`. */
  lemma MultipleOfMultiple(y: int, a: int, b: int)
    requires a > 0 && b > 0 && y % (a * b) == 0
    ensures y % a == 0
  {
    var k := y / (a * b);
    assert y == (a * b) * k;
    assert y == a * (b * k);
  }

  /** Moving from `y - 1` to `y` adds one multiple of 4 exactly when `y` is one. */
  lemma QuotientStep4(y: int)
    ensures y / 4 == (y - 1) / 4 + (if y % 4 == 0 then 1 else 0)
  {
  }

  lemma QuotientStep100(y: int)
    ensures y / 100 == (y - 1) / 100 + (if y % 100 == 0 then 1 else 0)
  {
  }

  lemma QuotientStep400(y: int)
    ensures y / 400 == (y - 1) / 400 + (if y % 400 == 0 then 1 else 0)
  {
  }

  lemma DaysBeforeNextMonth(y: int, m: int)
    requires 1 <= m < 12
    ensures DaysBeforeMonth(y, m + 1) == DaysBeforeMonth(y, m) + DaysInMonth(y, m)
  {
  }

  /** Every date of year `y` has a day number in `(DaysBeforeYear(y), DaysBeforeYear(y + 1)]`. */
  lemma OrdinalWithinYear(d: Date)
    requires IsCalendarDate(d)
    ensures DaysBeforeYear(d.year) < Ordinal(d) <= DaysBeforeYear(d.year + 1)
  {
    DaysBeforeNextYear(d.year);
  }

  lemma {:induction false} DaysBeforeYearMonotone(y1: int, y2: int)
    requires 1 <= y1 <= y2
    ensures DaysBeforeYear(y1) <= DaysBeforeYear(y2)
    decreases y2 - y1
  {
    if y1 < y2 {
      DaysBeforeNextYear(y1);
      DaysBeforeYearMonotone(y1 + 1, y2);
    }
  }

  lemma {:induction false} DaysBeforeMonthMonotone(y: int, m1: int, m2: int)
    requires 1 <= m1 < m2 <= 12
    ensures DaysBeforeMonth(y, m1) + DaysInMonth(y, m1) <= DaysBeforeMonth(y, m2)
    decreases m2 - m1
  {
    DaysBeforeNextMonth(y, m1);
    if m1 + 1 < m2 {
      DaysBeforeMonthMonotone(y, m1 + 1, m2);
    }
  }

  /** Day numbers are in chronological order: later dates have larger ordinals. */
  lemma OrdinalIncreasing(d1: Date, d2: Date)
    requires IsCalendarDate(d1) && IsCalendarDate(d2)
    requires Before(d1, d2)
    ensures Ordinal(d1) < Ordinal(d2)
  {
    if d1.year < d2.year {
      OrdinalWithinYear(d1);
      OrdinalWithinYear(d2);
      DaysBeforeYearMonotone(d1.year + 1, d2.year);
    } else if d1.month < d2.month {
      DaysBeforeMonthMonotone(d1.year, d1.month, d2.month);
    }
  }

  /** Comparing day numbers is comparing dates; distinct dates have distinct numbers. */
  lemma OrdinalOrder(d1: Date, d2: Date)
    requires IsCalendarDate(d1) && IsCalendarDate(d2)
    ensures Ordinal(d1) < Ordinal(d2) <==> Before(d1, d2)
    ensures Ordinal(d1) == Ordinal(d2) <==> d1 == d2
  {
    if Before(d1, d2) {
      OrdinalIncreasing(d1, d2);
    } else if Before(d2, d1) {
      OrdinalIncreasing(d2, d1);
    }
  }

  /** The calendar day after `d`. */
  function NextDay(d: Date): (n: Date)
    requires IsCalendarDate(d)
    requires d.year < MaxYear || d.month < 12 || d.day < 31
    ensures IsCalendarDate(n) && Before(d, n)
  {
    if d.day < DaysInMonth(d.year, d.month) then Date(d.year, d.month, d.day + 1)
    else if d.month < 12 then Date(d.year, d.month + 1, 1)
    else Date(d.year + 1, 1, 1)
  }

  /** Consecutive calendar days have consecutive ordinals, so an ordinal difference counts days. */
  lemma NextDayOrdinal(d: Date)
    requires IsCalendarDate(d)
    requires d.year < MaxYear || d.month < 12 || d.day < 31
    ensures Ordinal(NextDay(d)) == Ordinal(d) + 1
  {
    if d.day == DaysInMonth(d.year, d.month) {
      if d.month < 12 {
        DaysBeforeNextMonth(d.year, d.month);
      } else {
        DaysBeforeNextYear(d.year);
      }
    }
  }

  // ---------------------------------------------------------------------
  // Parsing with the format '%Y-%m-%d'
  // ---------------------------------------------------------------------

  predicate AllDigits(s: string) {
    forall i :: 0 <= i < |s| ==> IsDigit(s[i])
  }

  /** Decimal value of a string of digits, most significant first. */
  function DigitsValue(s: string): (n: nat)
    requires AllDigits(s)
    ensures n < Pow10(|s|)
    decreases |s|
  {
    if |s| == 0 then 0 else 10 * DigitsValue(s[..|s| - 1]) + DigitValue(s[|s| - 1])
  }

  /**
   * The `%m` directive, `1[0-2]|0[1-9]|[1-9]`, and the `-` after it: a
   * two-character alternative is taken when a dash follows it, otherwise the
   * one-digit alternative.  Yields the month and the characters consumed.
   */
  function MonthField(t: string): (r: Option<(int, nat)>)
    ensures r.Some? ==> 1 <= r.value.0 <= 12 && 2 <= r.value.1 <= 3 && r.value.1 <= |t| && t[r.value.1 - 1] == '-'
  {
    if |t| >= 3 && t[2] == '-'
       && ((t[0] == '1' && '0' <= t[1] <= '2') || (t[0] == '0' && '1' <= t[1] <= '9'))
    then Some((10 * DigitValue(t[0]) + DigitValue(t[1]), 3))
    else if |t| >= 2 && t[1] == '-' && '1' <= t[0] <= '9' then Some((DigitValue(t[0]), 2))
    else None
  }

  /**
   * The `%d` directive, `3[01]|[12]\d|0[1-9]|[1-9]| [1-9]`: the first
   * alternative that matches is taken.  Yields the day and the characters
   * consumed.
   */
  function DayField(u: string): (r: Option<(int, nat)>)
    ensures r.Some? ==> 1 <= r.value.0 <= 31 && 1 <= r.value.1 <= |u| && r.value.1 <= 2
  {
    if |u| >= 2 && u[0] == '3' && (u[1] == '0' || u[1] == '1') then Some((30 + DigitValue(u[1]), 2))
    else if |u| >= 2 && (u[0] == '1' || u[0] == '2') && IsDigit(u[1]) then Some((10 * DigitValue(u[0]) + DigitValue(u[1]), 2))
    else if |u| >= 2 && u[0] == '0' && '1' <= u[1] <= '9' then Some((DigitValue(u[1]), 2))
    else if |u| >= 1 && '1' <= u[0] <= '9' then Some((DigitValue(u[0]), 1))
    else if |u| >= 2 && u[0] == ' ' && '1' <= u[1] <= '9' then Some((DigitValue(u[1]), 2))
    else None
  }

  /**
   * `datetime.strptime(s, '%Y-%m-%d')`: four digits, a dash, the month
   * field and its dash, the day field, nothing left over ("unconverted data
   * remains" otherwise), and a date the `date` constructor accepts.
   */
  function ParseDate(s: string): (r: Option<Date>)
    ensures r.Some? ==> IsCalendarDate(r.value)
  {
    if |s| >= 5 && AllDigits(s[..4]) && s[4] == '-' then
      var y := DigitsValue(s[..4]);
      var rest := s[5..];
      match MonthField(rest)
      case None => None
      case Some(mf) =>
        var tail := rest[mf.1..];
        match DayField(tail)
        case None => None
        case Some(df) =>
          if df.1 == |tail| && MinYear <= y && df.0 <= DaysInMonth(y, mf.0)
          then Some(Date(y, mf.0, df.0))
          else None
    else None
  }

  /**
   * `is_valid_date`: `strptime` returns instead of raising `ValueError`.
   * Accepted text is eight to ten characters: four digits, a dash, the
   * month, a dash and the day.
   */
  predicate IsValidDate(s: string)
    ensures IsValidDate(s) ==> 8 <= |s| <= 10 && AllDigits(s[..4]) && s[4] == '-'
  {
    ParseDate(s).Some?
  }

  // ---------------------------------------------------------------------
  // Formatting
  // ---------------------------------------------------------------------

  function Pow10(w: nat): (p: nat)
    ensures p >= 1
  {
    if w == 0 then 1 else 10 * Pow10(w - 1)
  }

  /** The last `w` decimal digits of `n`, zero-padded on the left. */
  function Pad(n: nat, w: nat): (s: string)
    ensures |s| == w && AllDigits(s)
  {
    if w == 0 then [] else Pad(n / 10, w - 1) + [DigitChar(n % 10)]
  }

  /** The canonical text of a date, `YYYY-MM-DD`. */
  function FormatDate(d: Date): (s: string)
    requires IsCalendarDate(d)
    ensures |s| == 10 && s[4] == '-' && s[7] == '-'
  {
    Pad(d.year, 4) + "-" + Pad(d.month, 2) + "-" + Pad(d.day, 2)
  }

  /** `strftime('%Y-%m')` of a parsed date: the key of its month. */
  function MonthKey(d: Date): (s: string)
    requires IsCalendarDate(d)
    ensures |s| == 7 && s[4] == '-'
    ensures s == FormatDate(d)[..7]
  {
    assert FormatDate(d) == (Pad(d.year, 4) + "-" + Pad(d.month, 2)) + ("-" + Pad(d.day, 2));
    Pad(d.year, 4) + "-" + Pad(d.month, 2)
  }

  /** Padding loses nothing for numbers that fit the width. */
  lemma {:induction false} PadValue(n: nat, w: nat)
    requires n < Pow10(w)
    ensures DigitsValue(Pad(n, w)) == n
  {
    if w > 0 {
      PadValue(n / 10, w - 1);
      assert Pad(n, w)[..w - 1] == Pad(n / 10, w - 1);
    }
  }

  /** Fixed-width padding is order-preserving: string order is numeric order. */
  lemma {:induction false} PadOrder(a: nat, b: nat, w: nat)
    requires a < Pow10(w) && b < Pow10(w)
    ensures Less(Pad(a, w), Pad(b, w)) <==> a < b
    ensures Pad(a, w) == Pad(b, w) <==> a == b
  {
    if w > 0 {
      PadOrder(a / 10, b / 10, w - 1);
      var pa, pb := Pad(a / 10, w - 1), Pad(b / 10, w - 1);
      var ca, cb := DigitChar(a % 10), DigitChar(b % 10);
      LessConcat(pa, [ca], pb, [cb]);
      assert Less([ca], [cb]) <==> ca < cb by {
        assert [ca][1..] == [] && [cb][1..] == [];
      }
      assert ca < cb <==> a % 10 < b % 10;
      if pa + [ca] == pb + [cb] {
        assert pa == (pa + [ca])[..w - 1] && pb == (pb + [cb])[..w - 1];
        assert ca == (pa + [ca])[w - 1] && cb == (pb + [cb])[w - 1];
      }
    }
  }

  /** Formatting then parsing gives the date back. */
  lemma FormatParse(d: Date)
    requires IsCalendarDate(d)
    ensures ParseDate(FormatDate(d)) == Some(d)
  {
    var s := FormatDate(d);
    var rest := Pad(d.month, 2) + "-" + Pad(d.day, 2);
    assert s[..4] == Pad(d.year, 4) && s[4] == '-' && s[5..] == rest;
    assert Pow10(4) == 10000;
    PadValue(d.year, 4);
    PaddedMonthField(d.month, Pad(d.day, 2));
    assert rest[3..] == Pad(d.day, 2);
    PaddedDayField(d.day);
  }

  lemma PaddedMonthField(m: int, tail: string)
    requires 1 <= m <= 12
    ensures MonthField(Pad(m, 2) + "-" + tail) == Some((m, 3))
  {
    PadTwoDigits(m);
    var a, b := DigitChar(m / 10), DigitChar(m % 10);
    var t := Pad(m, 2) + "-" + tail;
    assert t == [a, b, '-'] + tail;
    assert t[0] == a && t[1] == b && t[2] == '-';
    assert 10 * DigitValue(a) + DigitValue(b) == m;
    if m < 10 {
      assert a == '0' && '1' <= b <= '9';
    } else {
      assert a == '1' && '0' <= b <= '2';
    }
  }

  lemma PaddedDayField(day: int)
    requires 1 <= day <= 31
    ensures DayField(Pad(day, 2)) == Some((day, 2))
  {
    PadTwoDigits(day);
    var u := Pad(day, 2);
    assert u[0] == DigitChar(day / 10) && u[1] == DigitChar(day % 10);
    if day < 10 {
      assert u[0] == '0' && '1' <= u[1] <= '9';
    } else if day < 30 {
      assert u[0] == '1' || u[0] == '2';
    } else {
      assert u[0] == '3' && (u[1] == '0' || u[1] == '1');
    }
  }

  lemma PadTwoDigits(n: nat)
    requires n < 100
    ensures Pad(n, 2) == [DigitChar(n / 10), DigitChar(n % 10)]
  {
    var q := n / 10;
    assert q < 10 && q % 10 == q;
    assert Pad(q, 1) == Pad(q / 10, 0) + [DigitChar(q % 10)];
    assert Pad(n, 2) == Pad(q, 1) + [DigitChar(n % 10)];
  }

  // ---------------------------------------------------------------------
  // What the parser accepts
  // ---------------------------------------------------------------------

  /** Ten characters laid out as `DDDD-DD-DD`, every `D` an ASCII digit. */
  predicate IsPaddedShape(s: string) {
    && |s| == 10 && s[4] == '-' && s[7] == '-'
    && AllDigits(s[..4]) && IsDigit(s[5]) && IsDigit(s[6]) && IsDigit(s[8]) && IsDigit(s[9])
  }

  /** The date a padded string spells, whether or not it exists. */
  function PaddedFields(s: string): Date
    requires IsPaddedShape(s)
  {
    Date(DigitsValue(s[..4]), 10 * DigitValue(s[5]) + DigitValue(s[6]), 10 * DigitValue(s[8]) + DigitValue(s[9]))
  }

  lemma TwoDigitDayField(u: string)
    requires |u| == 2 && IsDigit(u[0]) && IsDigit(u[1])
    ensures var v := 10 * DigitValue(u[0]) + DigitValue(u[1]);
            (DayField(u).Some? && DayField(u).value.1 == 2) <==> 1 <= v <= 31
    ensures DayField(u).Some? && DayField(u).value.1 == 2 ==>
            DayField(u).value.0 == 10 * DigitValue(u[0]) + DigitValue(u[1])
  {
  }

  /**
   * A zero-padded `YYYY-MM-DD` string is accepted exactly when it names a
   * real date: year at least 1, month 1 to 12, and a day within that month,
   * February 29 only in leap years.
   */
  lemma PaddedDateAccepted(s: string)
    requires IsPaddedShape(s)
    ensures IsValidDate(s) <==> IsCalendarDate(PaddedFields(s))
    ensures IsValidDate(s) ==> ParseDate(s) == Some(PaddedFields(s))
  {
    var rest := s[5..];
    assert rest[2] == '-';
    var tail := s[8..];
    assert tail == rest[3..];
    TwoDigitDayField(tail);
  }

  /** `strptime` also takes an unpadded month and day: `2023-2-5` is 5 February 2023. */
  lemma UnpaddedDateAccepted()
    ensures ParseDate("2023-2-5") == Some(Date(2023, 2, 5))
    ensures !IsCanonicalDate("2023-2-5")
  {
    var s := "2023-2-5";
    assert s[..4] == "2023";
    assert DigitsValue("2023") == 2023 by {
      assert "2023"[..3] == "202" && "202"[..2] == "20" && "20"[..1] == "2" && "2"[..0] == "";
    }
    assert s[5..] == "2-5" && "2-5"[2..] == "5";
    assert |FormatDate(Date(2023, 2, 5))| == 10;
  }

  lemma FourDigitsValue(s: string)
    requires |s| == 4 && AllDigits(s)
    ensures DigitsValue(s) == 1000 * DigitValue(s[0]) + 100 * DigitValue(s[1]) + 10 * DigitValue(s[2]) + DigitValue(s[3])
  {
    var s3 := s[..3];
    var s2 := s3[..2];
    var s1 := s2[..1];
    assert s1[..0] == [];
    assert DigitsValue(s1) == DigitValue(s[0]);
    assert DigitsValue(s2) == 10 * DigitValue(s[0]) + DigitValue(s[1]);
    assert DigitsValue(s3) == 100 * DigitValue(s[0]) + 10 * DigitValue(s[1]) + DigitValue(s[2]);
  }

  /** The fields a padded literal spells, read digit by digit. */
  lemma PaddedLiteral(s: string)
    requires IsPaddedShape(s)
    ensures PaddedFields(s) == Date(
      1000 * DigitValue(s[0]) + 100 * DigitValue(s[1]) + 10 * DigitValue(s[2]) + DigitValue(s[3]),
      10 * DigitValue(s[5]) + DigitValue(s[6]),
      10 * DigitValue(s[8]) + DigitValue(s[9]))
    ensures IsValidDate(s) <==> IsCalendarDate(PaddedFields(s))
    ensures IsValidDate(s) ==> ParseDate(s) == Some(PaddedFields(s))
  {
    FourDigitsValue(s[..4]);
    PaddedDateAccepted(s);
  }

  /** The canonical bounds of February 2023 read as the dates they spell. */
  lemma FirstOfFebruary(s: string)
    requires s == "2023-02-01"
    ensures ParseDate(s) == Some(Date(2023, 2, 1))
  {
    PaddedLiteral(s);
  }

  lemma LastOfFebruary(s: string)
    requires s == "2023-02-28"
    ensures ParseDate(s) == Some(Date(2023, 2, 28))
  {
    PaddedLiteral(s);
  }

  /** `2023-2-5` is a valid date strictly between the canonical bounds of February 2023. */
  lemma UnpaddedDateBetweenBounds(s: string, start: string, end: string)
    requires s == "2023-2-5" && start == "2023-02-01" && end == "2023-02-28"
    ensures IsValidDate(start) && IsValidDate(s) && IsValidDate(end)
    ensures Before(ParseDate(start).value, ParseDate(s).value)
    ensures Before(ParseDate(s).value, ParseDate(end).value)
  {
    UnpaddedDateAccepted();
    FirstOfFebruary(start);
    LastOfFebruary(end);
  }

  /** There is no 30 February. */
  lemma RejectsFebruaryThirtieth()
    ensures !IsValidDate("2023-02-30")
  {
    PaddedLiteral("2023-02-30");
    assert PaddedFields("2023-02-30") == Date(2023, 2, 30);
  }

  /** 2023 is not a leap year. */
  lemma RejectsCommonYearLeapDay()
    ensures !IsValidDate("2023-02-29")
  {
    PaddedLiteral("2023-02-29");
    assert PaddedFields("2023-02-29") == Date(2023, 2, 29);
  }

  /** 2024 is a leap year. */
  lemma AcceptsLeapDay()
    ensures IsValidDate("2024-02-29")
  {
    PaddedLiteral("2024-02-29");
    assert PaddedFields("2024-02-29") == Date(2024, 2, 29);
  }

  /** There is no thirteenth month. */
  lemma RejectsMonthThirteen()
    ensures !IsValidDate("2023-13-01")
  {
    PaddedLiteral("2023-13-01");
    assert PaddedFields("2023-13-01") == Date(2023, 13, 1);
  }

  /** There is no year 0 in Python's `date`. */
  lemma RejectsYearZero()
    ensures !IsValidDate("0000-01-01")
  {
    PaddedLiteral("0000-01-01");
    assert PaddedFields("0000-01-01") == Date(0, 1, 1);
  }

  // ---------------------------------------------------------------------
  // Canonical date text and its order
  // ---------------------------------------------------------------------

  /** Text that `strptime` accepts and that is exactly the `YYYY-MM-DD` form of its date. */
  predicate IsCanonicalDate(s: string) {
    ParseDate(s).Some? && FormatDate(ParseDate(s).value) == s
  }

  lemma FormatIsCanonical(d: Date)
    requires IsCalendarDate(d)
    ensures IsCanonicalDate(FormatDate(d))
  {
    FormatParse(d);
  }

  lemma DashPrefixOrder(x: string, y: string)
    ensures Less("-" + x, "-" + y) <==> Less(x, y)
  {
    LessConcat("-", x, "-", y);
    LessIrreflexive("-");
  }

  /** The canonical text of dates sorts in calendar order. */
  lemma FormatOrder(d1: Date, d2: Date)
    requires IsCalendarDate(d1) && IsCalendarDate(d2)
    ensures Less(FormatDate(d1), FormatDate(d2)) <==> Before(d1, d2)
  {
    assert Pow10(4) == 10000;
    var md1, md2 := MonthDay(d1), MonthDay(d2);
    FormatFields(d1);
    FormatFields(d2);
    PadOrder(d1.year, d2.year, 4);
    DashFieldsOrder(Pad(d1.year, 4), md1, Pad(d2.year, 4), md2);
    MonthDayOrder(d1, d2);
  }

  /** Text of the form `x-r` with equally long `x` compares on `x` first, then on `r`. */
  lemma DashFieldsOrder(x1: string, r1: string, x2: string, r2: string)
    requires |x1| == |x2|
    ensures Less(x1 + ("-" + r1), x2 + ("-" + r2)) <==> Less(x1, x2) || (x1 == x2 && Less(r1, r2))
  {
    LessConcat(x1, "-" + r1, x2, "-" + r2);
    DashPrefixOrder(r1, r2);
  }

  /** The `MM-DD` part of the canonical text. */
  function MonthDay(d: Date): (s: string)
    requires IsCalendarDate(d)
    ensures |s| == 5
  {
    Pad(d.month, 2) + ("-" + Pad(d.day, 2))
  }

  lemma FormatFields(d: Date)
    requires IsCalendarDate(d)
    ensures FormatDate(d) == Pad(d.year, 4) + ("-" + MonthDay(d))
  {
  }

  /** Within a year, the `MM-DD` text sorts by month, then day. */
  lemma MonthDayOrder(d1: Date, d2: Date)
    requires IsCalendarDate(d1) && IsCalendarDate(d2)
    ensures Less(MonthDay(d1), MonthDay(d2)) <==> d1.month < d2.month || (d1.month == d2.month && d1.day < d2.day)
    ensures MonthDay(d1) == MonthDay(d2) <==> d1.month == d2.month && d1.day == d2.day
  {
    assert Pow10(2) == 100;
    var dd1, dd2 := Pad(d1.day, 2), Pad(d2.day, 2);
    PadOrder(d1.month, d2.month, 2);
    PadOrder(d1.day, d2.day, 2);
    LessConcat(Pad(d1.month, 2), "-" + dd1, Pad(d2.month, 2), "-" + dd2);
    DashPrefixOrder(dd1, dd2);
    if MonthDay(d1) == MonthDay(d2) {
      assert Pad(d1.month, 2) == MonthDay(d1)[..2] && Pad(d2.month, 2) == MonthDay(d2)[..2];
      assert dd1 == MonthDay(d1)[3..] && dd2 == MonthDay(d2)[3..];
    }
  }

  /**
   * For canonical date text, string order (what SQLite's `date >= ?`
   * compares) agrees with the day numbers of the dates.
   */
  lemma CanonicalOrder(s1: string, s2: string)
    requires IsCanonicalDate(s1) && IsCanonicalDate(s2)
    ensures Less(s1, s2) <==> Ordinal(ParseDate(s1).value) < Ordinal(ParseDate(s2).value)
  {
    FormatOrder(ParseDate(s1).value, ParseDate(s2).value);
    OrdinalOrder(ParseDate(s1).value, ParseDate(s2).value);
  }

  /** Month keys sort chronologically: by year, then by month. */
  lemma MonthKeyOrder(d1: Date, d2: Date)
    requires IsCalendarDate(d1) && IsCalendarDate(d2)
    ensures Less(MonthKey(d1), MonthKey(d2)) <==> d1.year < d2.year || (d1.year == d2.year && d1.month < d2.month)
    ensures MonthKey(d1) == MonthKey(d2) <==> d1.year == d2.year && d1.month == d2.month
  {
    assert Pow10(4) == 10000 && Pow10(2) == 100;
    PadOrder(d1.year, d2.year, 4);
    PadOrder(d1.month, d2.month, 2);
    LessConcat(Pad(d1.year, 4), "-" + Pad(d1.month, 2), Pad(d2.year, 4), "-" + Pad(d2.month, 2));
    DashPrefixOrder(Pad(d1.month, 2), Pad(d2.month, 2));
    var k1, k2 := MonthKey(d1), MonthKey(d2);
    assert k1 == Pad(d1.year, 4) + ("-" + Pad(d1.month, 2));
    assert k2 == Pad(d2.year, 4) + ("-" + Pad(d2.month, 2));
    if k1 == k2 {
      assert k1[..4] == Pad(d1.year, 4) && k2[..4] == Pad(d2.year, 4);
      assert k1[5..] == Pad(d1.month, 2) && k2[5..] == Pad(d2.month, 2);
    }
  }

  /** For canonical text the month key is the first seven characters. */
  lemma MonthKeyIsPrefix(s: string)
    requires IsCanonicalDate(s)
    ensures MonthKey(ParseDate(s).value) == s[..7]
  {
  }
}
