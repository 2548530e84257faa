/** The desktop monitor's `get_date_range_summary` and its week, month and
    year ranges: the same day-by-day walk as the web API's, but counting in
    hours (seconds over 3600, exact here), with the weekday name of each
    day, real work clamped at zero, and the average taken over the days that
    have work rather than over every logged day. */
module DesktopSummary {
  import opened Common
  import opened JsonCodec
  import opened Calendar
  import opened DayRange
  import ActivityLog

  /** `strftime("%A")`, indexed by `weekday()`. */
  const WeekdayNames: seq<string> := ["Monday", "Tuesday", "Wednesday", "Thursday", "Friday", "Saturday", "Sunday"]

  function WeekdayName(d: Date): string
    requires Valid(d)
  {
    WeekdayNames[Weekday(d)]
  }

  /** One element of `daily_data`. */
  datatype DesktopDay = DesktopDay(date: string, dayName: string,
                                   workHours: real, idleHours: real, overtimeHours: real,
                                   suspiciousHours: real, screenshots: nat)

  /** `log.get(key, 0) / 3600`. */
  function HoursField(ms: seq<Member>, key: string): (r: Option<real>)
    ensures Lookup(ms, key).None? ==> r == Some(0.0)
    ensures Lookup(ms, key).Some? && Lookup(ms, key).value.JInt? ==>
              r.Some? && r.value * 3600.0 == Lookup(ms, key).value.i as real
  {
    var seconds :- NumberField(ms, key);
    Some(seconds / 3600.0)
  }

  /** The `daily_data` element of a day with a truthy log: four hour counts
      and the length of the screenshot list. None where Python raises: a
      record that is not an object, a counter that does not divide, a
      screenshot list without a length. */
  function EntryOf(date: string, dayName: string, log: Json): (r: Option<DesktopDay>)
    ensures r.Some? ==> log.JObj? && r.value.date == date && r.value.dayName == dayName
  {
    match log
    case JObj(ms) =>
      var work, idle := HoursField(ms, "work_seconds"), HoursField(ms, "idle_seconds");
      var overtime, suspicious := HoursField(ms, "overtime_seconds"), HoursField(ms, "suspicious_seconds");
      var screenshots := SizeField(ms, "screenshots");
      if work.Some? && idle.Some? && overtime.Some? && suspicious.Some? && screenshots.Some? then
        Some(DesktopDay(date, dayName, work.value, idle.value, overtime.value, suspicious.value, screenshots.value))
      else None
    case _ => None
  }

  /** A record the monitor wrote always reads back: each hour count times
      3600 is the stored seconds, and the screenshot count is the list's
      length. */
  lemma EntryOfMonitorRecord(date: string, dayName: string, log: ActivityLog.DayLog)
    ensures var e := EntryOf(date, dayName, ActivityLog.ToJson(log));
            e.Some? &&
            e.value.workHours * 3600.0 == log.workSeconds as real &&
            e.value.idleHours * 3600.0 == log.idleSeconds as real &&
            e.value.overtimeHours * 3600.0 == log.overtimeSeconds as real &&
            e.value.suspiciousHours * 3600.0 == log.suspiciousSeconds as real &&
            e.value.screenshots == |log.screenshots|
  {
    ActivityLog.CounterLookups(log);
    ActivityLog.ListLookups(log);
  }

  /** Day number `o`: `load_date` of its name, `if log:`, and the reads of
      `EntryOf` under the day's date and weekday name. */
  function ReadDay(load: Loader, o: int): (r: Day<DesktopDay>)
    ensures r.NoLog? <==> !LoggedOn(load, o)
  {
    if !LoggedOn(load, o) then NoLog else DayOf(o, LogOn(load, o))
  }

  /** Day number `o` with a truthy log: its entry, or Unreadable. */
  function DayOf(o: int, log: Json): (r: Day<DesktopDay>)
    requires 1 <= o <= MaxOrdinal
    ensures r != NoLog
    ensures r.Read? ==> r.entry.date == DayName(o) && r.entry.dayName == WeekdayName(DateOf(o))
  {
    match EntryOf(DayName(o), WeekdayName(DateOf(o)), log)
    case Some(e) => Read(e)
    case None => Unreadable
  }

  /** `ReadDay` as a function value, the form the walk takes. */
  function Reader(load: Loader): int -> Day<DesktopDay>
  {
    o => ReadDay(load, o)
  }

  lemma ReaderSkips(load: Loader)
    ensures forall o :: Reader(load)(o).NoLog? <==> !LoggedOn(load, o)
  {
  }

  // ---------------------------------------------------------------- totals

  datatype Field = WorkHours | IdleHours | OvertimeHours | SuspiciousHours

  function Get(e: DesktopDay, f: Field): real
  {
    match f
    case WorkHours => e.workHours
    case IdleHours => e.idleHours
    case OvertimeHours => e.overtimeHours
    case SuspiciousHours => e.suspiciousHours
  }

  /** Sum of one hour count over `daily_data`. */
  function Sum(ds: seq<DesktopDay>, f: Field): real
  {
    if ds == [] then 0.0 else Sum(ds[..|ds| - 1], f) + Get(ds[|ds| - 1], f)
  }

  /** Sum of the screenshot counts. */
  function Screenshots(ds: seq<DesktopDay>): nat
  {
    if ds == [] then 0 else Screenshots(ds[..|ds| - 1]) + ds[|ds| - 1].screenshots
  }

  /** `len([d for d in daily_data if d["work_hours"] > 0])`. */
  function DaysWorked(ds: seq<DesktopDay>): (n: nat)
    ensures n <= |ds|
  {
    if ds == [] then 0
    else DaysWorked(ds[..|ds| - 1]) + if ds[|ds| - 1].workHours > 0.0 then 1 else 0
  }

  /** The days worked are the positions of the breakdown with positive work. */
  lemma {:induction false} DaysWorkedCount(ds: seq<DesktopDay>)
    ensures DaysWorked(ds) == |set i | 0 <= i < |ds| && ds[i].workHours > 0.0|
  {
    if ds != [] {
      var init, last := ds[..|ds| - 1], |ds| - 1;
      DaysWorkedCount(init);
      var before := set i | 0 <= i < |init| && init[i].workHours > 0.0;
      var after := set i | 0 <= i < |ds| && ds[i].workHours > 0.0;
      if ds[last].workHours > 0.0 {
        assert after == before + {last};
        assert last !in before;
      } else {
        assert after == before;
      }
    }
  }

  /** The five running totals of the loop. */
  datatype Totals = Totals(work: real, idle: real, overtime: real, suspicious: real, screenshots: nat)

  function TotalsOf(ds: seq<DesktopDay>): Totals
  {
    Totals(Sum(ds, WorkHours), Sum(ds, IdleHours), Sum(ds, OvertimeHours), Sum(ds, SuspiciousHours),
           Screenshots(ds))
  }

  /** Adding one day's entry to the running totals keeps them the totals of
      the breakdown. */
  lemma TotalsOfSnoc(ds: seq<DesktopDay>, e: DesktopDay)
    ensures var t := TotalsOf(ds);
            TotalsOf(ds + [e])
            == Totals(t.work + e.workHours, t.idle + e.idleHours, t.overtime + e.overtimeHours,
                      t.suspicious + e.suspiciousHours, t.screenshots + e.screenshots)
  {
    assert (ds + [e])[..|ds|] == ds;
  }

  function Add(a: Totals, b: Totals): Totals
  {
    Totals(a.work + b.work, a.idle + b.idle, a.overtime + b.overtime, a.suspicious + b.suspicious,
           a.screenshots + b.screenshots)
  }

  /** The totals of two runs of days add up. */
  lemma {:induction false} TotalsAppend(a: seq<DesktopDay>, b: seq<DesktopDay>)
    ensures TotalsOf(a + b) == Add(TotalsOf(a), TotalsOf(b))
    ensures DaysWorked(a + b) == DaysWorked(a) + DaysWorked(b)
  {
    if b == [] {
      assert a + b == a;
    } else {
      var init, e := b[..|b| - 1], b[|b| - 1];
      assert b == init + [e];
      assert a + b == (a + init) + [e];
      assert (a + b)[..|a + b| - 1] == a + init;
      TotalsAppend(a, init);
      TotalsOfSnoc(a + init, e);
      TotalsOfSnoc(init, e);
    }
  }

  // ---------------------------------------------------------------- the summary

  datatype Summary = Summary(
    workHours: real, idleHours: real, overtimeHours: real, suspiciousHours: real,
    realWorkHours: real, screenshotCount: nat, daysWorked: nat,
    daily: seq<DesktopDay>, avgWorkPerDay: real)

  /** `max(0, total_work - total_suspicious)`. */
  function ClampedRealWork(work: real, suspicious: real): (r: real)
    ensures r >= 0.0 && r >= work - suspicious
    ensures r == 0.0 || r == work - suspicious
  {
    if work - suspicious > 0.0 then work - suspicious else 0.0
  }

  /** `total_work / max(1, days_worked)`. */
  function AverageWork(work: real, daysWorked: nat): (r: real)
    ensures r * (if daysWorked >= 1 then daysWorked as real else 1.0) == work
  {
    work / (if daysWorked >= 1 then daysWorked as real else 1.0)
  }

  /** The returned dictionary, given `daily_data`: the four hour totals and
      the screenshot total are the sums over the breakdown, real work is
      work less suspicious time when that is positive and 0 otherwise,
      the days worked are the breakdown's days with positive work, and the
      average times the days worked (at least 1) is the total work. */
  function Summarize(ds: seq<DesktopDay>): (r: Summary)
    ensures r.daily == ds && r.workHours == Sum(ds, WorkHours) && r.suspiciousHours == Sum(ds, SuspiciousHours)
    ensures r.idleHours == Sum(ds, IdleHours) && r.overtimeHours == Sum(ds, OvertimeHours)
    ensures r.screenshotCount == Screenshots(ds)
    ensures r.realWorkHours >= 0.0
    ensures r.workHours - r.suspiciousHours > 0.0 ==> r.realWorkHours == r.workHours - r.suspiciousHours
    ensures r.workHours - r.suspiciousHours <= 0.0 ==> r.realWorkHours == 0.0
    ensures r.daysWorked == |set i | 0 <= i < |ds| && ds[i].workHours > 0.0|
    ensures r.avgWorkPerDay * (if r.daysWorked >= 1 then r.daysWorked as real else 1.0) == r.workHours
  {
    DaysWorkedCount(ds);
    var t := TotalsOf(ds);
    Summary(t.work, t.idle, t.overtime, t.suspicious, ClampedRealWork(t.work, t.suspicious),
            t.screenshots, DaysWorked(ds), ds, AverageWork(t.work, DaysWorked(ds)))
  }

  /** `get_date_range_summary(start_date, end_date)` where `read` reads a
      day. */
  function SummaryOf(read: int -> Day<DesktopDay>, start: Date, end: Date): Option<Summary>
    requires InRange(start) && InRange(end)
  {
    var ds :- Walked(read, Ordinal(start), Ordinal(end));
    Some(Summarize(ds))
  }

  /** The loop over day numbers from `lo` while it is not after `last`, with
      five running totals and the `daily_data` list. */
  method WalkDays(read: int -> Day<DesktopDay>, lo: int, last: int) returns (r: Option<(seq<DesktopDay>, Totals)>)
    requires 1 <= lo && last <= MaxOrdinal
    ensures r.None? <==> Walked(read, lo, last).None?
    ensures r.Some? ==> r.value.0 == Walked(read, lo, last).value && r.value.1 == TotalsOf(r.value.0)
  {
    ghost var hi := last + 1;
    var totalWork, totalIdle, totalOvertime, totalSuspicious := 0.0, 0.0, 0.0, 0.0;
    var totalScreenshots: nat := 0;
    var daily: seq<DesktopDay> := [];
    var current := lo;
    while current <= last
      invariant lo <= current <= if lo < hi then hi else lo
      invariant lo < current ==> current <= MaxOrdinal
      invariant WalkFrom(read, lo, current) == Some(daily)
      invariant Totals(totalWork, totalIdle, totalOvertime, totalSuspicious, totalScreenshots) == TotalsOf(daily)
      decreases hi - current
    {
      match read(current) {
        case NoLog =>
        case Unreadable =>
          WalkFails(read, lo, current + 1, hi);
          return None;
        case Read(e) =>
          TotalsOfSnoc(daily, e);
          totalWork := totalWork + e.workHours;
          totalIdle := totalIdle + e.idleHours;
          totalOvertime := totalOvertime + e.overtimeHours;
          totalSuspicious := totalSuspicious + e.suspiciousHours;
          totalScreenshots := totalScreenshots + e.screenshots;
          daily := daily + [e];
      }
      if current == MaxOrdinal {
        return None;
      }
      current := current + 1;
    }
    r := Some((daily, Totals(totalWork, totalIdle, totalOvertime, totalSuspicious, totalScreenshots)));
  }

  /** `get_date_range_summary`: the walk, then real work clamped at zero, the
      days with work, and the average over them. */
  method DateRangeSummary(read: int -> Day<DesktopDay>, start: Date, end: Date) returns (r: Option<Summary>)
    requires InRange(start) && InRange(end)
    ensures r == SummaryOf(read, start, end)
  {
    OrdinalInRange(end);
    var walked := WalkDays(read, Ordinal(start), Ordinal(end));
    if walked.None? {
      return None;
    }
    var (daily, t) := walked.value;
    var daysWorked := DaysWorked(daily);
    var realWork := if t.work - t.suspicious > 0.0 then t.work - t.suspicious else 0.0;
    var avg := t.work / (if daysWorked >= 1 then daysWorked as real else 1.0);
    r := Some(Summary(t.work, t.idle, t.overtime, t.suspicious, realWork, t.screenshots, daysWorked, daily, avg));
  }

  // ---------------------------------------------------------------- what the summary holds

  /** With no negative work stored, a range without a day of work has no
      work at all and averages 0. */
  lemma {:induction false} NoDaysWorked(ds: seq<DesktopDay>)
    requires forall i :: 0 <= i < |ds| ==> ds[i].workHours >= 0.0
    requires DaysWorked(ds) == 0
    ensures Sum(ds, WorkHours) == 0.0 && Summarize(ds).avgWorkPerDay == 0.0
  {
    if ds != [] {
      NoDaysWorked(ds[..|ds| - 1]);
    }
  }

  /** Where the summary exists, `daily_data` holds one entry per logged day
      of the range, in order, each what that day reads to. */
  lemma SummaryBreakdown(load: Loader, start: Date, end: Date)
    requires InRange(start) && InRange(end)
    ensures var r := SummaryOf(Reader(load), start, end);
            var days := Steps(Visited(Reader(load)), Ordinal(start), Ordinal(end) + 1);
            r.Some? ==>
              |r.value.daily| == |days| &&
              forall i :: 0 <= i < |days| ==> ReadDay(load, days[i]) == Read(r.value.daily[i])
  {
    var read := Reader(load);
    var lo, hi := Ordinal(start), Ordinal(end) + 1;
    var days := Steps(Visited(read), lo, hi);
    if SummaryOf(read, start, end).Some? {
      var walked := Walked(read, lo, hi - 1).value;
      assert SummaryOf(read, start, end).value.daily == walked;
      WalkFromEntries(read, lo, hi);
      var es := Entries(read, days).value;
      assert walked == es;
      forall i | 0 <= i < |days|
        ensures ReadDay(load, days[i]) == Read(es[i])
      {
        assert read(days[i]) == ReadDay(load, days[i]);
      }
    }
  }

  /** The breakdown's dates come in strictly increasing order, each with its
      own weekday name, and they are days of the range with a truthy log. */
  lemma SummaryOrdered(load: Loader, start: Date, end: Date)
    requires InRange(start) && InRange(end)
    ensures var r := SummaryOf(Reader(load), start, end);
            r.Some? ==>
              forall i, j :: 0 <= i < j < |r.value.daily| ==> LexLess(r.value.daily[i].date, r.value.daily[j].date)
  {
    var lo, hi := Ordinal(start), Ordinal(end) + 1;
    var days := Steps(Visited(Reader(load)), lo, hi);
    if SummaryOf(Reader(load), start, end).Some? {
      var daily := SummaryOf(Reader(load), start, end).value.daily;
      SummaryBreakdown(load, start, end);
      ReaderSkips(load);
      LoggedSteps(load, Reader(load), lo, hi);
      forall i, j | 0 <= i < j < |daily|
        ensures LexLess(daily[i].date, daily[j].date)
      {
        DayNameOrder(days[i], days[j]);
      }
    }
  }

  /** Every day of the range that reads has its entry in the breakdown
      (with `Reader(load)`: every day with a truthy log that reads). */
  lemma SummaryComplete(read: int -> Day<DesktopDay>, start: Date, end: Date, o: int)
    requires InRange(start) && InRange(end)
    requires Ordinal(start) <= o <= Ordinal(end) && read(o).Read?
    ensures var r := SummaryOf(read, start, end);
            r.Some? ==> read(o).entry in r.value.daily
  {
    if SummaryOf(read, start, end).Some? {
      WalkContains(read, Ordinal(start), Ordinal(end) + 1, o);
    }
  }

  /** Walking `lo..hi` in two parts: where the whole walk succeeds, both
      parts do, and its totals and days worked are theirs added. */
  lemma WalkTotalsSplit(read: int -> Day<DesktopDay>, lo: int, mid: int, hi: int)
    requires lo <= mid <= hi && WalkFrom(read, lo, hi).Some?
    ensures WalkFrom(read, lo, mid).Some? && WalkFrom(read, mid, hi).Some?
    ensures TotalsOf(WalkFrom(read, lo, hi).value)
            == Add(TotalsOf(WalkFrom(read, lo, mid).value), TotalsOf(WalkFrom(read, mid, hi).value))
    ensures DaysWorked(WalkFrom(read, lo, hi).value)
            == DaysWorked(WalkFrom(read, lo, mid).value) + DaysWorked(WalkFrom(read, mid, hi).value)
  {
    WalkSplit(read, lo, mid, hi);
    TotalsAppend(WalkFrom(read, lo, mid).value, WalkFrom(read, mid, hi).value);
  }

  // ---------------------------------------------------------------- week, month, year

  /** `get_week_summary`: from the Monday of today's week to today. */
  function WeekSummary(read: int -> Day<DesktopDay>, today: Date): (r: Option<Summary>)
    requires InRange(today)
    ensures r.Some? ==> r.value.daysWorked <= |r.value.daily| <= 7
  {
    StartInRange(today, WeekStart(today));
    WalkedLength(read, Ordinal(WeekStart(today)), Ordinal(today));
    SummaryOf(read, WeekStart(today), today)
  }

  /** `get_month_summary`: from the first of today's month to today. */
  function MonthSummary(read: int -> Day<DesktopDay>, today: Date): (r: Option<Summary>)
    requires InRange(today)
    ensures r.Some? ==> r.value.daysWorked <= |r.value.daily| <= today.day
  {
    StartInRange(today, MonthStart(today));
    WalkedLength(read, Ordinal(MonthStart(today)), Ordinal(today));
    SummaryOf(read, MonthStart(today), today)
  }

  /** `get_year_summary`: from 1 January of today's year to today. */
  function YearSummary(read: int -> Day<DesktopDay>, today: Date): (r: Option<Summary>)
    requires InRange(today)
    ensures r.Some? ==> r.value.daysWorked <= |r.value.daily| <= DaysInYear(today.year)
  {
    StartInRange(today, YearStart(today));
    WalkedLength(read, Ordinal(YearStart(today)), Ordinal(today));
    SummaryOf(read, YearStart(today), today)
  }
}
