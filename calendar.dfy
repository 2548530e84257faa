/** The proleptic Gregorian calendar as Python's `datetime.date` sees it:
    civil dates, their day number (`toordinal`, 1 for 0001-01-01), the day of
    the week (`weekday`, Monday 0), stepping by whole days (`timedelta`), and
    the `%Y-%m-%d` text the program uses for dates everywhere. */
module Calendar {
  import opened Common

  datatype Date = Date(year: int, month: int, day: int)

  predicate IsLeap(y: int)
  {
    y % 4 == 0 && (y % 100 != 0 || y % 400 == 0)
  }

  function DaysInMonth(y: int, m: int): (r: int)
    requires 1 <= m <= 12
    ensures 28 <= r <= 31
  {
    if m == 2 then (if IsLeap(y) then 29 else 28)
    else if m == 4 || m == 6 || m == 9 || m == 11 then 30
    else 31
  }

  function DaysInYear(y: int): int
  {
    if IsLeap(y) then 366 else 365
  }

  predicate Valid(d: Date)
  {
    d.year >= 1 && 1 <= d.month <= 12 && 1 <= d.day <= DaysInMonth(d.year, d.month)
  }

  /** Days in the years before year `y`: the lengths of years 1 to y - 1. */
  function DaysBeforeYear(y: int): (r: nat)
    requires y >= 1
  {
    if y == 1 then 0 else DaysBeforeYear(y - 1) + DaysInYear(y - 1)
  }

  /** Days in the months of year `y` before month `m`. */
  function DaysBeforeMonth(y: int, m: int): (r: int)
    requires 1 <= m <= 12
    ensures 0 <= r && r + DaysInMonth(y, m) <= DaysInYear(y)
  {
    var table := [0, 31, 59, 90, 120, 151, 181, 212, 243, 273, 304, 334];
    table[m - 1] + (if m > 2 && IsLeap(y) then 1 else 0)
  }

  /** `date.toordinal()`. */
  function Ordinal(d: Date): int
    requires Valid(d)
  {
    DaysBeforeYear(d.year) + DaysBeforeMonth(d.year, d.month) + d.day
  }

  /** `date.weekday()`: Monday is 0, Sunday is 6 (day 1 was a Monday). */
  function Weekday(d: Date): (r: int)
    requires Valid(d)
    ensures 0 <= r < 7
  {
    (Ordinal(d) + 6) % 7
  }

  /** Python's comparison of dates: year, then month, then day. */
  predicate Before(a: Date, b: Date)
  {
    a.year < b.year || (a.year == b.year && (a.month < b.month || (a.month == b.month && a.day < b.day)))
  }

  // ---------------------------------------------------------------- arithmetic facts

  lemma DivStep(p: int)
    requires p >= 0
    ensures (p + 1) / 4 - p / 4 == (if (p + 1) % 4 == 0 then 1 else 0)
    ensures (p + 1) / 100 - p / 100 == (if (p + 1) % 100 == 0 then 1 else 0)
    ensures (p + 1) / 400 - p / 400 == (if (p + 1) % 400 == 0 then 1 else 0)
  {
  }

  lemma Divisibility(y: int)
    ensures y % 400 == 0 ==> y % 100 == 0
    ensures y % 100 == 0 ==> y % 4 == 0
  {
    var q400, q100, q4 := y / 400, y / 100, y / 4;
    assert y == 400 * q400 + y % 400 && y == 100 * q100 + y % 100 && y == 4 * q4 + y % 4;
    if y % 400 == 0 {
      // y % 100 is a multiple of 100 below 100.
      assert y % 100 == 100 * (4 * q400 - q100);
    }
    if y % 100 == 0 {
      // y % 4 is a multiple of 4 below 4.
      assert y % 4 == 4 * (25 * q100 - q4);
    }
  }

  /** One more year adds that year's length. */
  lemma DaysBeforeNextYear(y: int)
    requires y >= 1
    ensures DaysBeforeYear(y + 1) == DaysBeforeYear(y) + DaysInYear(y)
  {
  }

  /** The closed form Python's `datetime` module computes
      (`_days_before_year`): 365 a year plus the leap days of the Gregorian
      rule. */
  lemma {:induction false} DaysBeforeYearFormula(y: int)
    requires y >= 1
    ensures DaysBeforeYear(y) == (y - 1) * 365 + (y - 1) / 4 - (y - 1) / 100 + (y - 1) / 400
  {
    if y > 1 {
      DaysBeforeYearFormula(y - 1);
      DivStep(y - 2);
      Divisibility(y - 1);
    }
  }

  lemma {:induction false} DaysBeforeYearMono(y1: int, y2: int)
    requires 1 <= y1 < y2
    ensures DaysBeforeYear(y1) + DaysInYear(y1) <= DaysBeforeYear(y2)
    decreases y2 - y1
  {
    DaysBeforeNextYear(y1);
    if y1 + 1 < y2 {
      DaysBeforeYearMono(y1 + 1, y2);
    }
  }

  lemma DaysBeforeMonthMono(y: int, m1: int, m2: int)
    requires 1 <= m1 < m2 <= 12
    ensures DaysBeforeMonth(y, m1) + DaysInMonth(y, m1) <= DaysBeforeMonth(y, m2)
  {
  }

  // ---------------------------------------------------------------- order

  /** Day numbers order dates exactly as Python compares them. */
  lemma OrdinalOrder(a: Date, b: Date)
    requires Valid(a) && Valid(b)
    ensures Ordinal(a) < Ordinal(b) <==> Before(a, b)
    ensures Ordinal(a) == Ordinal(b) <==> a == b
  {
    if a.year < b.year {
      DaysBeforeYearMono(a.year, b.year);
    } else if b.year < a.year {
      DaysBeforeYearMono(b.year, a.year);
    } else if a.month < b.month {
      DaysBeforeMonthMono(a.year, a.month, b.month);
    } else if b.month < a.month {
      DaysBeforeMonthMono(a.year, b.month, a.month);
    }
  }

  // ---------------------------------------------------------------- stepping

  /** `d + timedelta(days=1)`. */
  function NextDay(d: Date): (r: Date)
    requires Valid(d)
    ensures Valid(r) && Ordinal(r) == Ordinal(d) + 1
  {
    if d.day < DaysInMonth(d.year, d.month) then Date(d.year, d.month, d.day + 1)
    else if d.month < 12 then Date(d.year, d.month + 1, 1)
    else
      DaysBeforeNextYear(d.year);
      Date(d.year + 1, 1, 1)
  }

  /** `d - timedelta(days=1)`; day 1 has no predecessor. */
  function PrevDay(d: Date): (r: Date)
    requires Valid(d) && Ordinal(d) > 1
    ensures Valid(r) && Ordinal(r) == Ordinal(d) - 1
  {
    if d.day > 1 then Date(d.year, d.month, d.day - 1)
    else if d.month > 1 then Date(d.year, d.month - 1, DaysInMonth(d.year, d.month - 1))
    else
      assert d.year > 1;
      DaysBeforeNextYear(d.year - 1);
      Date(d.year - 1, 12, 31)
  }

  /** `d + timedelta(days=k)` for any whole k that stays at or after day 1. */
  function AddDays(d: Date, k: int): (r: Date)
    requires Valid(d) && Ordinal(d) + k >= 1
    ensures Valid(r) && Ordinal(r) == Ordinal(d) + k
    decreases if k < 0 then -k else k
  {
    if k == 0 then d
    else if k > 0 then AddDays(NextDay(d), k - 1)
    else AddDays(PrevDay(d), k + 1)
  }

  /** `today - timedelta(days=today.weekday())`: the Monday that starts the week. */
  function WeekStart(d: Date): (r: Date)
    requires Valid(d)
    ensures Valid(r) && Weekday(r) == 0
    ensures Ordinal(r) <= Ordinal(d) < Ordinal(r) + 7
  {
    WeekStartFacts(d);
    AddDays(d, -Weekday(d))
  }

  lemma WeekStartFacts(d: Date)
    requires Valid(d)
    ensures Ordinal(d) - Weekday(d) >= 1
    ensures Weekday(AddDays(d, -Weekday(d))) == 0
  {
    var n := Ordinal(d);
    WeekArith(n);
    var r := AddDays(d, -Weekday(d));
    assert Ordinal(r) == n - (n + 6) % 7;
  }

  lemma WeekArith(n: int)
    requires n >= 1
    ensures var w := (n + 6) % 7; n - w >= 1 && (n - w + 6) % 7 == 0
  {
    var q := (n + 6) / 7;
    assert n + 6 == 7 * q + (n + 6) % 7;
    assert q >= 1;
    assert n - (n + 6) % 7 + 6 == 7 * q;
  }

  /** `today.replace(day=1)`. */
  function MonthStart(d: Date): (r: Date)
    requires Valid(d)
    ensures Valid(r) && r.year == d.year && r.month == d.month && r.day == 1
    ensures Ordinal(r) <= Ordinal(d)
  {
    Date(d.year, d.month, 1)
  }

  /** `today.replace(month=1, day=1)`. */
  function YearStart(d: Date): (r: Date)
    requires Valid(d)
    ensures Valid(r) && r.year == d.year && r.month == 1 && r.day == 1
    ensures Ordinal(r) <= Ordinal(d)
  {
    Date(d.year, 1, 1)
  }

  // ---------------------------------------------------------------- text

  /** `d.strftime("%Y-%m-%d")` for years of four digits. */
  function DateString(d: Date): (r: string)
    requires Valid(d) && d.year < 10000
    ensures |r| == 10 && r[4] == '-' && r[7] == '-'
  {
    Pad4(d.year) + "-" + Pad2(d.month) + "-" + Pad2(d.day)
  }

  lemma {:induction false} LexLessConcat(a1: string, a2: string, b1: string, b2: string)
    requires |a1| == |b1|
    ensures LexLess(a1 + a2, b1 + b2) <==> LexLess(a1, b1) || (a1 == b1 && LexLess(a2, b2))
  {
    if a1 != [] {
      assert (a1 + a2)[1..] == a1[1..] + a2;
      assert (b1 + b2)[1..] == b1[1..] + b2;
      LexLessConcat(a1[1..], a2, b1[1..], b2);
      if a1[0] == b1[0] {
        assert a1 == b1 <==> a1[1..] == b1[1..] by {
          if a1[1..] == b1[1..] {
            assert a1 == [a1[0]] + a1[1..] && b1 == [b1[0]] + b1[1..];
          }
        }
      }
    } else {
      assert a1 + a2 == a2 && b1 + b2 == b2;
    }
  }

  /** Fixed-width digit fields compare as text exactly as their values do. */
  lemma PaddedOrder(a: string, b: string)
    requires AllDigits(a) && AllDigits(b) && |a| == |b|
    ensures LexLess(a, b) <==> DigitsValue(a) < DigitsValue(b)
    ensures a == b ==> DigitsValue(a) == DigitsValue(b)
  {
    LexLessDigits(a, b);
  }

  /** Comparing two `%Y-%m-%d` strings as text (what the retention rule does)
      is comparing the dates. */
  lemma DateStringOrder(a: Date, b: Date)
    requires Valid(a) && Valid(b) && a.year < 10000 && b.year < 10000
    ensures LexLess(DateString(a), DateString(b)) <==> Ordinal(a) < Ordinal(b)
  {
    var ya, yb := Pad4(a.year), Pad4(b.year);
    var ma, mb := Pad2(a.month), Pad2(b.month);
    var da, db := Pad2(a.day), Pad2(b.day);
    assert DateString(a) == ya + ("-" + ma + "-" + da);
    assert DateString(b) == yb + ("-" + mb + "-" + db);
    LexLessConcat(ya, "-" + ma + "-" + da, yb, "-" + mb + "-" + db);
    PaddedOrder(ya, yb);
    LexLessConcat("-", ma + "-" + da, "-", mb + "-" + db);
    assert "-" + ma + "-" + da == "-" + (ma + "-" + da);
    assert "-" + mb + "-" + db == "-" + (mb + "-" + db);
    assert !LexLess("-", "-");
    LexLessConcat(ma, "-" + da, mb, "-" + db);
    assert ma + "-" + da == ma + ("-" + da);
    assert mb + "-" + db == mb + ("-" + db);
    PaddedOrder(ma, mb);
    LexLessConcat("-", da, "-", db);
    PaddedOrder(da, db);
    OrdinalOrder(a, b);
  }

  // ---------------------------------------------------------------- reading text back

  /** The value of a decimal digit. */
  function DigitOf(c: char): (n: int)
    requires IsDigit(c)
    ensures 0 <= n < 10 && DigitChar(n) == c
  {
    c as int - '0' as int
  }

  /** The `%m` group of `strptime`: `1[0-2]|0[1-9]|[1-9]`, the first
      alternative that matches (the month is always followed by '-', which
      none of the two-character alternatives can leave for the shorter one,
      so backtracking changes nothing). Gives the month and what follows. */
  function MatchMonth(s: string): (r: Option<(int, string)>)
    ensures r.Some? ==> 1 <= r.value.0 <= 12 && |r.value.1| < |s|
  {
    if |s| >= 2 && s[0] == '1' && '0' <= s[1] <= '2' then Some((10 + DigitOf(s[1]), s[2..]))
    else if |s| >= 2 && s[0] == '0' && '1' <= s[1] <= '9' then Some((DigitOf(s[1]), s[2..]))
    else if |s| >= 1 && '1' <= s[0] <= '9' then Some((DigitOf(s[0]), s[1..]))
    else None
  }

  /** The `%d` group of `strptime`: `3[01]|[12]\d|0[1-9]|[1-9]| [1-9]`, the
      first alternative that matches. Gives the day and what follows. */
  function MatchDay(s: string): (r: Option<(int, string)>)
    ensures r.Some? ==> 1 <= r.value.0 <= 31 && |r.value.1| < |s|
  {
    if |s| >= 2 && s[0] == '3' && '0' <= s[1] <= '1' then Some((30 + DigitOf(s[1]), s[2..]))
    else if |s| >= 2 && '1' <= s[0] <= '2' && IsDigit(s[1]) then Some((DigitOf(s[0]) * 10 + DigitOf(s[1]), s[2..]))
    else if |s| >= 2 && s[0] == '0' && '1' <= s[1] <= '9' then Some((DigitOf(s[1]), s[2..]))
    else if |s| >= 1 && '1' <= s[0] <= '9' then Some((DigitOf(s[0]), s[1..]))
    else if |s| >= 2 && s[0] == ' ' && '1' <= s[1] <= '9' then Some((DigitOf(s[1]), s[2..]))
    else None
  }

  /** `datetime.strptime(s, "%Y-%m-%d")` as a date: four digits of year, '-',
      the month group, '-', the day group and nothing after it ("unconverted
      data remains" otherwise), then a real calendar day (year 0 and
      30 February are refused). None wherever Python raises `ValueError`. */
  function ParseDate(s: string): (r: Option<Date>)
    ensures r.Some? ==> Valid(r.value) && r.value.year <= 9999
  {
    if |s| < 5 || !AllDigits(s[..4]) || s[4] != '-' then None
    else
      DigitsBound(s[..4]);
      var year := DigitsValue(s[..4]);
      match MatchMonth(s[5..])
      case None => None
      case Some((month, afterMonth)) =>
        if |afterMonth| < 1 || afterMonth[0] != '-' then None
        else
          match MatchDay(afterMonth[1..])
          case None => None
          case Some((day, rest)) =>
            if rest != [] || !Valid(Date(year, month, day)) then None
            else Some(Date(year, month, day))
  }

  /** A two-digit month reads back as itself. */
  lemma MatchMonthPad(m: int, rest: string)
    requires 1 <= m <= 12
    ensures MatchMonth(Pad2(m) + rest) == Some((m, rest))
  {
    var s := Pad2(m) + rest;
    assert s[2..] == rest;
  }

  /** A two-digit day of the month reads back as itself. */
  lemma MatchDayPad(d: int, rest: string)
    requires 1 <= d <= 31
    ensures MatchDay(Pad2(d) + rest) == Some((d, rest))
  {
    var s := Pad2(d) + rest;
    assert s[2..] == rest;
  }

  /** Parsing the `%Y-%m-%d` text of any date a `datetime` holds gives the
      date back. */
  lemma ParseDateString(d: Date)
    requires Valid(d) && d.year <= 9999
    ensures ParseDate(DateString(d)) == Some(d)
  {
    var y, m, dd := Pad4(d.year), Pad2(d.month), Pad2(d.day);
    var s := DateString(d);
    assert s == y + "-" + m + "-" + dd;
    assert s[..4] == y;
    assert s[5..] == m + ("-" + dd);
    MatchMonthPad(d.month, "-" + dd);
    assert ("-" + dd)[1..] == dd + [];
    MatchDayPad(d.day, []);
  }
}
