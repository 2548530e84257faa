/** The read side of the web API (`api/main.py`): today's record with its
    zero-valued fallback, the summary of a range of days with seven running
    totals, the week/month/year ranges, the range endpoint's handling of its
    two date parameters, and the formatting of durations and of a summary
    for display. Days are walked as in `DayRange`; the data directory is a
    `Store`. */
module Api {
  import opened Common
  import opened JsonCodec
  import opened Storage
  import opened Calendar
  import opened DayRange
  import ActivityLog

  // ---------------------------------------------------------------- today's record

  /** The record `load_today` returns when there is nothing to show. */
  function DefaultLog(date: string): (r: Json)
    ensures r.JObj? && |r.members| == 13
  {
    JObj([
      Member("date", JStr(date)),
      Member("work_seconds", JInt(0)),
      Member("idle_seconds", JInt(0)),
      Member("overtime_seconds", JInt(0)),
      Member("suspicious_seconds", JInt(0)),
      Member("screenshots", JArr([])),
      Member("sessions", JArr([])),
      Member("current_session_start", JNull),
      Member("suspicious_events", JArr([])),
      Member("keyboard_activity_count", JInt(0)),
      Member("window_change_count", JInt(0)),
      Member("idle_periods", JArr([])),
      Member("current_idle_start", JNull)
    ])
  }

  /** `load_today`: the stored record of today when it loads and is truthy,
      otherwise the zero-valued record dated today; it never fails. */
  function LoadToday(load: Loader, today: string): (r: Json)
    ensures Truthy(r)
    ensures load(today).Some? && Truthy(load(today).value) ==> r == load(today).value
  {
    var log := load(today);
    if log.Some? && Truthy(log.value) then log.value else DefaultLog(today)
  }

  /** The fallback is the very record the monitor starts a new day with, so
      the API shows an untouched day exactly as the monitor would write it. */
  lemma DefaultIsFreshRecord(date: string)
    ensures DefaultLog(date) == ActivityLog.ToJson(ActivityLog.FreshLog(date))
  {
    assert ActivityLog.ListJson([], ActivityLog.ScreenshotJson) == [];
    assert ActivityLog.ListJson([], ActivityLog.EventJson) == [];
    assert ActivityLog.ListJson([], ActivityLog.PeriodJson) == [];
  }

  /** A missing file, an undecodable file and a falsy record all give the
      zero-valued record dated today. */
  lemma LoadTodayFallback(load: Loader, today: string)
    requires load(today).None? || !Truthy(load(today).value)
    ensures LoadToday(load, today) == DefaultLog(today)
    ensures Lookup(LoadToday(load, today).members, "date") == Some(JStr(today))
    ensures Lookup(LoadToday(load, today).members, "work_seconds") == Some(JInt(0))
    ensures Lookup(LoadToday(load, today).members, "current_idle_start") == Some(JNull)
  {
    var start := ActivityLog.FreshLog(today);
    DefaultIsFreshRecord(today);
    ActivityLog.FieldIs(start, 0, "date", JStr(today));
    ActivityLog.FieldIs(start, 1, "work_seconds", JInt(0));
    ActivityLog.FieldIs(start, 12, "current_idle_start", JNull);
  }

  /** A truthy record written under today's name is what `load_today` shows. */
  lemma LoadTodayWritten(store: Store, today: string, v: Json)
    requires Truthy(v)
    ensures LoadToday(Load(store[LogFileName(today) := EncodeData(v)]), today) == v
  {
    LoadDateAfterWrite(store, today, v);
  }

  // ---------------------------------------------------------------- one day of a range

  /** One element of `daily_breakdown`. */
  datatype DayEntry = DayEntry(date: string, work: int, idle: int, overtime: int, suspicious: int,
                               screenshots: nat, keyboard: int, window: int)
  {
    /** `real_work_seconds`: work less suspicious time, not clamped at 0. */
    function RealWork(): int
    {
      work - suspicious
    }
  }

  /** The quantities the summary adds up. */
  datatype Counter = Work | Idle | Overtime | Suspicious | RealWork | Screenshots | Keyboard | Window

  function Get(e: DayEntry, c: Counter): int
  {
    match c
    case Work => e.work
    case Idle => e.idle
    case Overtime => e.overtime
    case Suspicious => e.suspicious
    case RealWork => e.RealWork()
    case Screenshots => e.screenshots
    case Keyboard => e.keyboard
    case Window => e.window
  }

  /** The four time counters of a record: `work_seconds`, `idle_seconds`,
      `overtime_seconds`, `suspicious_seconds`. */
  function TimeFields(ms: seq<Member>): (r: Option<(int, int, int, int)>)
    ensures r.Some? <==> IntField(ms, "work_seconds").Some? && IntField(ms, "idle_seconds").Some? &&
                         IntField(ms, "overtime_seconds").Some? && IntField(ms, "suspicious_seconds").Some?
  {
    var work, idle := IntField(ms, "work_seconds"), IntField(ms, "idle_seconds");
    var overtime, suspicious := IntField(ms, "overtime_seconds"), IntField(ms, "suspicious_seconds");
    if work.Some? && idle.Some? && overtime.Some? && suspicious.Some?
    then Some((work.value, idle.value, overtime.value, suspicious.value))
    else None
  }

  /** The screenshot count and the two activity counters of a record. */
  function ActivityFields(ms: seq<Member>): (r: Option<(nat, int, int)>)
    ensures r.Some? <==> SizeField(ms, "screenshots").Some? &&
                         IntField(ms, "keyboard_activity_count").Some? && IntField(ms, "window_change_count").Some?
  {
    var screenshots := SizeField(ms, "screenshots");
    var keyboard, window := IntField(ms, "keyboard_activity_count"), IntField(ms, "window_change_count");
    if screenshots.Some? && keyboard.Some? && window.Some?
    then Some((screenshots.value, keyboard.value, window.value))
    else None
  }

  /** The breakdown entry of a day with a truthy log: seven `.get` reads with
      their defaults and the unclamped real work. None where Python raises:
      a record that is not an object (no `.get`), a counter that is a
      string, list, object or null (the `+=` fails), a screenshot list
      without a length. A decimal counter, which the program adds as a
      float, is None here too: the totals are integers. */
  function EntryOf(date: string, log: Json): (r: Option<DayEntry>)
    ensures r.Some? ==> log.JObj? && r.value.date == date
  {
    match log
    case JObj(ms) =>
      var (times, counts) := (TimeFields(ms), ActivityFields(ms));
      if times.Some? && counts.Some? then
        var (work, idle, overtime, suspicious) := times.value;
        var (screenshots, keyboard, window) := counts.value;
        Some(DayEntry(date, work, idle, overtime, suspicious, screenshots, keyboard, window))
      else None
    case _ => None
  }

  /** A record the monitor wrote always reads back, counter for counter. */
  lemma EntryOfMonitorRecord(date: string, log: ActivityLog.DayLog)
    ensures var e := EntryOf(date, ActivityLog.ToJson(log));
            e.Some? && e.value.date == date &&
            e.value.work == log.workSeconds && e.value.idle == log.idleSeconds &&
            e.value.overtime == log.overtimeSeconds && e.value.suspicious == log.suspiciousSeconds &&
            e.value.screenshots == |log.screenshots| &&
            e.value.keyboard == log.keyboardActivityCount && e.value.window == log.windowChangeCount
  {
    MonitorTimeFields(log);
    MonitorActivityFields(log);
  }

  lemma MonitorTimeFields(log: ActivityLog.DayLog)
    ensures TimeFields(ActivityLog.ToJson(log).members)
            == Some((log.workSeconds, log.idleSeconds, log.overtimeSeconds, log.suspiciousSeconds))
  {
    ActivityLog.CounterLookups(log);
  }

  lemma MonitorActivityFields(log: ActivityLog.DayLog)
    ensures ActivityFields(ActivityLog.ToJson(log).members)
            == Some((|log.screenshots|, log.keyboardActivityCount, log.windowChangeCount))
  {
    ActivityLog.ListLookups(log);
    ActivityLog.CountLookups(log);
  }


  /** Day number `o`: `load_date` of its name, `if log:`, and the reads of
      `EntryOf`. */
  function ReadDay(load: Loader, o: int): (r: Day<DayEntry>)
    ensures r.NoLog? <==> !LoggedOn(load, o)
  {
    if !LoggedOn(load, o) then NoLog else DayOf(DayName(o), LogOn(load, o))
  }

  /** A day that reads carries the day's name. */
  lemma ReadDayDate(load: Loader, o: int)
    ensures ReadDay(load, o).Read? ==> LoggedOn(load, o) && ReadDay(load, o).entry.date == DayName(o)
  {
    if LoggedOn(load, o) {
      ReadLoggedDay(load, o);
    }
  }

  lemma ReadLoggedDay(load: Loader, o: int)
    requires LoggedOn(load, o)
    ensures ReadDay(load, o) == DayOf(DayName(o), LogOn(load, o))
  {
  }

  /** A day with a truthy log: its entry, or Unreadable where `EntryOf`
      fails. */
  function DayOf(date: string, log: Json): (r: Day<DayEntry>)
    ensures r != NoLog
    ensures r.Read? ==> r.entry.date == date
  {
    if EntryOf(date, log).Some? then Read(EntryOf(date, log).value) else Unreadable
  }


  /** `ReadDay` as a function value, the form the walk takes. */
  function Reader(load: Loader): int -> Day<DayEntry>
  {
    o => ReadDay(load, o)
  }


  // ---------------------------------------------------------------- the range summary

  /** Sum of one quantity over the breakdown. */
  function Total(es: seq<DayEntry>, c: Counter): int
  {
    if es == [] then 0 else Total(es[..|es| - 1], c) + Get(es[|es| - 1], c)
  }

  lemma {:induction false} TotalAppend(a: seq<DayEntry>, b: seq<DayEntry>, c: Counter)
    ensures Total(a + b, c) == Total(a, c) + Total(b, c)
  {
    if b == [] {
      assert a + b == a;
    } else {
      var init, e := b[..|b| - 1], b[|b| - 1];
      assert b == init + [e];
      assert a + b == (a + init) + [e];
      TotalAppend(a, init, c);
      TotalSnoc(a + init, e, c);
      TotalSnoc(init, e, c);
    }
  }

  lemma TotalSnoc(es: seq<DayEntry>, e: DayEntry, c: Counter)
    ensures Total(es + [e], c) == Total(es, c) + Get(e, c)
  {
    assert (es + [e])[..|es|] == es;
  }

  /** The summed real work is the summed work less the summed suspicious
      time. */
  lemma {:induction false} TotalRealWork(es: seq<DayEntry>)
    ensures Total(es, RealWork) == Total(es, Work) - Total(es, Suspicious)
  {
    if es != [] {
      TotalRealWork(es[..|es| - 1]);
    }
  }

  /** `total / num_days if num_days > 0 else 0`, as an exact quotient. */
  function Average(total: int, days: nat): real
  {
    if days > 0 then total as real / days as real else 0.0
  }

  /** The average times the number of days is the total; no days average 0. */
  lemma AverageExact(total: int, days: nat)
    ensures days > 0 ==> Average(total, days) * days as real == total as real
    ensures days == 0 ==> Average(total, days) == 0.0
  {
  }

  datatype RangeSummary = RangeSummary(
    startDate: string, endDate: string,
    totalWork: int, totalIdle: int, totalOvertime: int, totalSuspicious: int, totalRealWork: int,
    totalScreenshots: int, totalKeyboard: int, totalWindow: int,
    averageWork: real, averageIdle: real,
    daily: seq<DayEntry>)

  /** The returned dictionary of `get_date_range_summary`, given the
      breakdown. */
  function Summarize(start: Date, end: Date, es: seq<DayEntry>): (r: RangeSummary)
    requires InRange(start) && InRange(end)
  {
    RangeSummary(
      DateString(start), DateString(end),
      Total(es, Work), Total(es, Idle), Total(es, Overtime), Total(es, Suspicious),
      Total(es, Work) - Total(es, Suspicious),
      Total(es, Screenshots), Total(es, Keyboard), Total(es, Window),
      Average(Total(es, Work), |es|), Average(Total(es, Idle), |es|),
      es)
  }


  /** `get_date_range_summary(start_date, end_date)` where `read` reads a
      day. */
  function SummaryOf(read: int -> Day<DayEntry>, start: Date, end: Date): (r: Option<RangeSummary>)
    requires InRange(start) && InRange(end)
  {
    var es :- Walked(read, Ordinal(start), Ordinal(end));
    Some(Summarize(start, end, es))
  }


  /** The seven running totals of the loop. */
  datatype Totals = Totals(work: int, idle: int, overtime: int, suspicious: int,
                           screenshots: int, keyboard: int, window: int)

  /** The seven totals of a breakdown. */
  function TotalsOf(daily: seq<DayEntry>): Totals
  {
    Totals(Total(daily, Work), Total(daily, Idle), Total(daily, Overtime), Total(daily, Suspicious),
           Total(daily, Screenshots), Total(daily, Keyboard), Total(daily, Window))
  }

  /** Adding one day's entry to the running totals keeps them the totals of
      the breakdown. */
  lemma TotalsOfSnoc(daily: seq<DayEntry>, e: DayEntry)
    ensures var t := TotalsOf(daily);
            TotalsOf(daily + [e])
            == Totals(t.work + e.work, t.idle + e.idle, t.overtime + e.overtime,
                      t.suspicious + e.suspicious, t.screenshots + e.screenshots,
                      t.keyboard + e.keyboard, t.window + e.window)
  {
    assert (daily + [e])[..|daily|] == daily;
  }

  /** The loop of `get_date_range_summary` over day numbers: a day at a time
      from `lo` while it is not after `last`, seven running totals and the
      breakdown list. `read` is how a day is loaded and read (`Reader(Load(store))`
      for a data directory). Stepping a day number is how `date +
      timedelta(days=1)` steps, and where it raises `OverflowError` past the
      last day. */
  method WalkDays(read: int -> Day<DayEntry>, lo: int, last: int) returns (r: Option<(seq<DayEntry>, Totals)>)
    requires 1 <= lo && last <= MaxOrdinal
    ensures r.None? <==> Walked(read, lo, last).None?
    ensures r.Some? ==> r.value.0 == Walked(read, lo, last).value && r.value.1 == TotalsOf(r.value.0)
  {
    ghost var hi := last + 1;
    var totalWork, totalIdle, totalOvertime, totalSuspicious := 0, 0, 0, 0;
    var totalScreenshots, totalKeyboard, totalWindow := 0, 0, 0;
    var daily: seq<DayEntry> := [];
    var current := lo;
    while current <= last
      invariant lo <= current <= if lo < hi then hi else lo
      invariant lo < current ==> current <= MaxOrdinal
      invariant WalkFrom(read, lo, current) == Some(daily)
      invariant Totals(totalWork, totalIdle, totalOvertime, totalSuspicious,
                       totalScreenshots, totalKeyboard, totalWindow) == TotalsOf(daily)
      decreases hi - current
    {
      match read(current) {
        case NoLog =>
        case Unreadable =>
          WalkFails(read, lo, current + 1, hi);
          assert Walked(read, lo, last).None?;
          return None;
        case Read(e) =>
          TotalsOfSnoc(daily, e);
          totalWork := totalWork + e.work;
          totalIdle := totalIdle + e.idle;
          totalOvertime := totalOvertime + e.overtime;
          totalSuspicious := totalSuspicious + e.suspicious;
          totalScreenshots := totalScreenshots + e.screenshots;
          totalKeyboard := totalKeyboard + e.keyboard;
          totalWindow := totalWindow + e.window;
          daily := daily + [e];
      }
      if current == MaxOrdinal {
        assert Walked(read, lo, last).None?;
        return None;
      }
      current := current + 1;
    }
    assert Walked(read, lo, last) == Some(daily);
    r := Some((daily, Totals(totalWork, totalIdle, totalOvertime, totalSuspicious,
                             totalScreenshots, totalKeyboard, totalWindow)));
  }

  /** `get_date_range_summary`: the walk, then the returned dictionary with
      real work as work less suspicious time and the two averages. */
  method DateRangeSummary(read: int -> Day<DayEntry>, start: Date, end: Date) returns (r: Option<RangeSummary>)
    requires InRange(start) && InRange(end)
    ensures r == SummaryOf(read, start, end)
  {
    OrdinalInRange(end);
    var walked := WalkDays(read, Ordinal(start), Ordinal(end));
    if walked.None? {
      return None;
    }
    var (daily, t) := walked.value;
    r := Some(RangeSummary(
      DateString(start), DateString(end),
      t.work, t.idle, t.overtime, t.suspicious, t.work - t.suspicious,
      t.screenshots, t.keyboard, t.window,
      Average(t.work, |daily|), Average(t.idle, |daily|),
      daily));
    SummarizeIs(start, end, daily, r.value);
  }

  /** A summary with the breakdown's totals and averages is `Summarize`'s. */
  lemma SummarizeIs(start: Date, end: Date, daily: seq<DayEntry>, s: RangeSummary)
    requires InRange(start) && InRange(end)
    requires s.startDate == DateString(start) && s.endDate == DateString(end) && s.daily == daily
    requires s.totalWork == Total(daily, Work) && s.totalIdle == Total(daily, Idle)
    requires s.totalOvertime == Total(daily, Overtime) && s.totalSuspicious == Total(daily, Suspicious)
    requires s.totalRealWork == s.totalWork - s.totalSuspicious
    requires s.totalScreenshots == Total(daily, Screenshots)
    requires s.totalKeyboard == Total(daily, Keyboard) && s.totalWindow == Total(daily, Window)
    requires s.averageWork == Average(s.totalWork, |daily|) && s.averageIdle == Average(s.totalIdle, |daily|)
    ensures s == Summarize(start, end, daily)
  {
  }


  // ---------------------------------------------------------------- what the summary holds

  /** The days numbered `lo` up to but excluding `hi` that the loop does not
      skip, in the order it visits them. */
  function LoggedDays(load: Loader, lo: int, hi: int): seq<int>
  {
    Steps(Visited(Reader(load)), lo, hi)
  }

  /** The days the loop keeps are exactly the days of the range with a
      truthy log, each once, in increasing order. */
  lemma LoggedDaysAre(load: Loader, lo: int, hi: int)
    ensures forall i :: 0 <= i < |LoggedDays(load, lo, hi)| ==>
              lo <= LoggedDays(load, lo, hi)[i] < hi && LoggedOn(load, LoggedDays(load, lo, hi)[i])
    ensures forall i, j :: 0 <= i < j < |LoggedDays(load, lo, hi)| ==>
              LoggedDays(load, lo, hi)[i] < LoggedDays(load, lo, hi)[j]
    ensures forall o :: lo <= o < hi && LoggedOn(load, o) ==> o in LoggedDays(load, lo, hi)
  {
    LoggedSteps(load, Reader(load), lo, hi);
  }

  lemma VisitedIsLogged(load: Loader, o: int)
    ensures Visited(Reader(load))(o) <==> LoggedOn(load, o)
  {
  }

  /** A day that reads to an entry has a truthy log and the entry is what
      `EntryOf` makes of it. */
  lemma ReadDayIs(load: Loader, o: int, e: DayEntry)
    requires ReadDay(load, o) == Read(e)
    ensures LoggedOn(load, o) && EntryOf(DayName(o), LogOn(load, o)) == Some(e)
  {
    ReadLoggedDay(load, o);
    DayOfIs(DayName(o), LogOn(load, o), e);
  }

  lemma DayOfIs(date: string, log: Json, e: DayEntry)
    requires DayOf(date, log) == Read(e)
    ensures EntryOf(date, log) == Some(e)
  {
  }


  /** Where the summary exists, its breakdown holds one entry per logged day
      of the range, in order, each what that day reads to (`ReadDayIs` and
      `ReadDayDate` unpack it: the entry of the day's record under the day's
      name). */
  lemma SummaryBreakdown(load: Loader, start: Date, end: Date)
    requires InRange(start) && InRange(end)
    ensures var r := SummaryOf(Reader(load), start, end);
            var days := LoggedDays(load, Ordinal(start), Ordinal(end) + 1);
            r.Some? ==>
              |r.value.daily| == |days| &&
              forall i :: 0 <= i < |days| ==> ReadDay(load, days[i]) == Read(r.value.daily[i])
  {
    var read := Reader(load);
    var lo, hi := Ordinal(start), Ordinal(end) + 1;
    if SummaryOf(read, start, end).Some? {
      WalkFromEntries(read, lo, hi);
    }
  }

  /** The summary fails exactly when a day of the range that is not skipped
      cannot be read, or when the range ends on the last representable day
      (stepping past it raises). */
  lemma SummaryFails(read: int -> Day<DayEntry>, start: Date, end: Date)
    requires InRange(start) && InRange(end)
    ensures var days := Steps(Visited(read), Ordinal(start), Ordinal(end) + 1);
            SummaryOf(read, start, end).None? <==>
              (Ordinal(start) <= Ordinal(end) == MaxOrdinal) ||
              exists i :: 0 <= i < |days| && read(days[i]) == Unreadable
  {
    WalkedNone(read, Ordinal(start), Ordinal(end));
  }

  /** The breakdown has at most one entry per day of the range, and none
      when the start is after the end. */
  lemma SummaryLength(read: int -> Day<DayEntry>, start: Date, end: Date)
    requires InRange(start) && InRange(end)
    ensures var r := SummaryOf(read, start, end);
            r.Some? ==>
              |r.value.daily| <= if Ordinal(end) < Ordinal(start) then 0 else Ordinal(end) - Ordinal(start) + 1
  {
    WalkedLength(read, Ordinal(start), Ordinal(end));
  }

  /** The breakdown's dates come in strictly increasing order, so no day
      appears twice. */
  lemma SummaryOrdered(load: Loader, start: Date, end: Date)
    requires InRange(start) && InRange(end)
    ensures var r := SummaryOf(Reader(load), start, end);
            r.Some? ==>
              forall i, j :: 0 <= i < j < |r.value.daily| ==> LexLess(r.value.daily[i].date, r.value.daily[j].date)
  {
    var lo, hi := Ordinal(start), Ordinal(end) + 1;
    var days := LoggedDays(load, lo, hi);
    if SummaryOf(Reader(load), start, end).Some? {
      var daily := SummaryOf(Reader(load), start, end).value.daily;
      SummaryBreakdown(load, start, end);
      LoggedDaysAre(load, lo, hi);
      forall i, j | 0 <= i < j < |daily|
        ensures LexLess(daily[i].date, daily[j].date)
      {
        ReadDayDate(load, days[i]);
        ReadDayDate(load, days[j]);
        DayNameOrder(days[i], days[j]);
      }
    }
  }

  /** Every day of the range that reads has its entry in the breakdown
      (with `Reader(load)`: every day with a truthy log that reads). */
  lemma SummaryComplete(read: int -> Day<DayEntry>, start: Date, end: Date, o: int)
    requires InRange(start) && InRange(end)
    requires Ordinal(start) <= o <= Ordinal(end) && read(o).Read?
    ensures var r := SummaryOf(read, start, end);
            r.Some? ==> read(o).entry in r.value.daily
  {
    if SummaryOf(read, start, end).Some? {
      WalkContains(read, Ordinal(start), Ordinal(end) + 1, o);
    }
  }

  /** The totals are the sums over the breakdown: total real work is the sum
      of the breakdown's real work, and a range with no logged day totals 0. */
  lemma SummaryTotals(read: int -> Day<DayEntry>, start: Date, end: Date)
    requires InRange(start) && InRange(end)
    ensures var r := SummaryOf(read, start, end);
            r.Some? ==>
              r.value.totalWork == Total(r.value.daily, Work) &&
              r.value.totalRealWork == Total(r.value.daily, RealWork) &&
              (|r.value.daily| == 0 ==> r.value.totalWork == 0 && r.value.totalRealWork == 0)
  {
    if SummaryOf(read, start, end).Some? {
      TotalRealWork(SummaryOf(read, start, end).value.daily);
    }
  }

  /** Each average is its total over the number of logged days, or 0 when
      no day is logged (`AverageExact`: times the number of days it gives the
      total back). */
  lemma SummaryAverages(read: int -> Day<DayEntry>, start: Date, end: Date)
    requires InRange(start) && InRange(end)
    ensures var r := SummaryOf(read, start, end);
            r.Some? ==>
              (|r.value.daily| > 0 ==> r.value.averageWork == r.value.totalWork as real / |r.value.daily| as real) &&
              (|r.value.daily| > 0 ==> r.value.averageIdle == r.value.totalIdle as real / |r.value.daily| as real) &&
              (|r.value.daily| == 0 ==> r.value.averageWork == 0.0 && r.value.averageIdle == 0.0)
  {
  }

  /** Real work is not clamped at zero: a day with more suspicious time than
      work time gives a negative total. */
  lemma RealWorkUnclamped(start: Date)
    requires InRange(start)
    ensures Summarize(start, start, [DayEntry(DateString(start), 60, 0, 0, 100, 0, 0, 0)]).totalRealWork == -40
  {
    var es := [DayEntry(DateString(start), 60, 0, 0, 100, 0, 0, 0)];
    assert es[..0] == [];
    assert Total(es, Work) == 60 && Total(es, Suspicious) == 100;
  }



  // ---------------------------------------------------------------- week, month, year

  /** `get_week_summary`: from the Monday of today's week to today. */
  function WeekSummary(read: int -> Day<DayEntry>, today: Date): (r: Option<RangeSummary>)
    requires InRange(today)
    ensures r.Some? ==> |r.value.daily| <= 7
  {
    StartInRange(today, WeekStart(today));
    SummaryLength(read, WeekStart(today), today);
    SummaryOf(read, WeekStart(today), today)
  }

  /** `get_month_summary`: from the first of today's month to today. */
  function MonthSummary(read: int -> Day<DayEntry>, today: Date): (r: Option<RangeSummary>)
    requires InRange(today)
    ensures r.Some? ==> |r.value.daily| <= today.day
  {
    StartInRange(today, MonthStart(today));
    SummaryLength(read, MonthStart(today), today);
    SummaryOf(read, MonthStart(today), today)
  }

  /** `get_year_summary`: from 1 January of today's year to today. */
  function YearSummary(read: int -> Day<DayEntry>, today: Date): (r: Option<RangeSummary>)
    requires InRange(today)
    ensures r.Some? ==> |r.value.daily| <= DaysInYear(today.year)
  {
    StartInRange(today, YearStart(today));
    SummaryLength(read, YearStart(today), today);
    SummaryOf(read, YearStart(today), today)
  }

  // ---------------------------------------------------------------- the range endpoint

  /** What an endpoint sends back: the summary, or an HTTP error with its
      status code and detail text (None where the detail is the text of
      whichever exception Python raised, which the model does not render). */
  datatype Response = Ok(summary: RangeSummary) | Error(status: int, detail: Option<string>)

  const BadFormat := "Invalid date format. Use YYYY-MM-DD"
  const StartAfterEnd := "Start date must be before end date"

  /** `get_range_activity(start, end)` as written: the 400 raised for a
      start after the end is raised inside the `try`, so the catch-all
      `except Exception` turns it into a 500 whose detail is the 400's text
      (`str` of an `HTTPException` is "status: detail"). */
  function RangeActivityAsWritten(read: int -> Day<DayEntry>, start: string, end: string): (r: Response)
  {
    RangeAnswerAsWritten(read, ParseDate(start), ParseDate(end))
  }

  /** `get_range_activity` as intended: a start after the end is a 400. */
  function RangeActivity(read: int -> Day<DayEntry>, start: string, end: string): (r: Response)
  {
    RangeAnswer(read, ParseDate(start), ParseDate(end))
  }

  /** The endpoint's answer once both parameters went through `strptime`
      (None: it raised `ValueError`), as written. */
  function RangeAnswerAsWritten(read: int -> Day<DayEntry>, s: Option<Date>, e: Option<Date>): (r: Response)
    requires s.Some? ==> InRange(s.value)
    requires e.Some? ==> InRange(e.value)
  {
    if s.None? || e.None? then Error(400, Some(BadFormat))
    else if Ordinal(s.value) > Ordinal(e.value) then Error(500, Some("400: " + StartAfterEnd))
    else if SummaryOf(read, s.value, e.value).None? then Error(500, None)
    else Ok(SummaryOf(read, s.value, e.value).value)
  }

  /** The endpoint's answer once both parameters went through `strptime`,
      as intended. */
  function RangeAnswer(read: int -> Day<DayEntry>, s: Option<Date>, e: Option<Date>): (r: Response)
    requires s.Some? ==> InRange(s.value)
    requires e.Some? ==> InRange(e.value)
  {
    if s.None? || e.None? then Error(400, Some(BadFormat))
    else if Ordinal(s.value) > Ordinal(e.value) then Error(400, Some(StartAfterEnd))
    else if SummaryOf(read, s.value, e.value).None? then Error(500, None)
    else Ok(SummaryOf(read, s.value, e.value).value)
  }

  /** As written, a range whose start is after its end is answered with a
      500, never with the 400 the code raises for it. */
  lemma ReversedRangeAsWritten(read: int -> Day<DayEntry>, start: Date, end: Date)
    requires InRange(start) && InRange(end) && Ordinal(start) > Ordinal(end)
    ensures RangeActivityAsWritten(read, DateString(start), DateString(end)) == Error(500, Some("400: " + StartAfterEnd))
  {
    ParseDateString(start);
    ParseDateString(end);
  }

  /** The concrete request `start=2024-01-02&end=2024-01-01`. */
  lemma ReversedRangeExample(read: int -> Day<DayEntry>)
    ensures RangeActivityAsWritten(read, "2024-01-02", "2024-01-01") == Error(500, Some("400: " + StartAfterEnd))
  {
    DateStringExample();
    ReversedRangeAsWritten(read, Date(2024, 1, 2), Date(2024, 1, 1));
  }

  lemma DateStringExample()
    ensures DateString(Date(2024, 1, 2)) == "2024-01-02" && DateString(Date(2024, 1, 1)) == "2024-01-01"
  {
  }

  /** The intended answer is 400 exactly for a parameter that is not a date
      and for a start after the end; otherwise it is the summary of the
      range, or 500 where the summary raises. */
  lemma RangeAnswerCases(read: int -> Day<DayEntry>, s: Option<Date>, e: Option<Date>)
    requires s.Some? ==> InRange(s.value)
    requires e.Some? ==> InRange(e.value)
    ensures var r := RangeAnswer(read, s, e);
            (r.Error? && r.status == 400) <==> s.None? || e.None? || Ordinal(s.value) > Ordinal(e.value)
    ensures var r := RangeAnswer(read, s, e);
            r.Ok? <==> s.Some? && e.Some? && Ordinal(s.value) <= Ordinal(e.value) && SummaryOf(read, s.value, e.value).Some?
    ensures var r := RangeAnswer(read, s, e);
            r.Ok? ==> r.summary == SummaryOf(read, s.value, e.value).value
  {
  }

  /** The two differ only on a start after the end. */
  lemma RangeAnswerFixed(read: int -> Day<DayEntry>, s: Option<Date>, e: Option<Date>)
    requires s.Some? ==> InRange(s.value)
    requires e.Some? ==> InRange(e.value)
    ensures RangeAnswer(read, s, e) != RangeAnswerAsWritten(read, s, e) <==>
              s.Some? && e.Some? && Ordinal(s.value) > Ordinal(e.value)
  {
  }

  // ---------------------------------------------------------------- formatting

  /** `format_time(seconds)`: seconds below a minute (negative values
      included), whole minutes below an hour, else hours and the minutes
      left over when there are any. */
  function FormatTime(seconds: int): (r: string)
  {
    if seconds < 60 then IntToString(seconds) + "s"
    else if seconds < 3600 then NatToString(seconds / 60) + "m"
    else
      var hours, minutes := seconds / 3600, seconds % 3600 / 60;
      if minutes > 0 then NatToString(hours) + "h " + NatToString(minutes) + "m"
      else NatToString(hours) + "h"
  }

  /** Reads a duration in `format_time`'s notation back as seconds. */
  function ReadDuration(t: string): (r: Option<int>)
  {
    if |t| < 2 then None
    else
      var body, unit := t[..|t| - 1], t[|t| - 1];
      if unit == 's' then ReadInt(body)
      else if unit == 'h' then Scaled(ReadNat(body), 3600)
      else if unit == 'm' then ReadMinutesText(body)
      else None
  }

  function Scaled(n: Option<nat>, unit: int): Option<int>
  {
    if n.Some? then Some(n.value * unit) else None
  }

  /** The text before a final 'm': minutes, or hours, "h ", minutes. */
  function ReadMinutesText(body: string): Option<int>
  {
    var k := IndexOf(body, ' ');
    if k == |body| then Scaled(ReadNat(body), 60)
    else if k >= 1 && body[k - 1] == 'h' && ReadNat(body[..k - 1]).Some? && ReadNat(body[k + 1..]).Some? then
      Some(ReadNat(body[..k - 1]).value * 3600 + ReadNat(body[k + 1..]).value * 60)
    else None
  }

  /** What `format_time` shows of a duration: all of it below a minute,
      otherwise the whole minutes (the seconds past the last minute are
      dropped). */
  function Shown(seconds: int): int
  {
    if seconds < 60 then seconds else seconds / 60 * 60
  }

  /** Reading `format_time`'s text back gives the duration it shows. */
  lemma FormatTimeReadsBack(seconds: int)
    ensures ReadDuration(FormatTime(seconds)) == Some(Shown(seconds))
  {
    if seconds < 60 {
      ReadSeconds(seconds);
    } else if seconds < 3600 {
      assert FormatTime(seconds) == NatToString(seconds / 60) + "m";
      ReadMinutes(seconds / 60);
    } else {
      var hours, minutes := seconds / 3600, seconds % 3600 / 60;
      HoursMinutes(seconds);
      if minutes > 0 {
        assert FormatTime(seconds) == NatToString(hours) + "h " + NatToString(minutes) + "m";
        ReadHoursMinutes(hours, minutes);
      } else {
        assert FormatTime(seconds) == NatToString(hours) + "h";
        ReadHours(hours);
      }
    }
  }

  lemma ReadSeconds(seconds: int)
    ensures ReadDuration(IntToString(seconds) + "s") == Some(seconds)
  {
    ReadUnit(IntToString(seconds), 's');
    ReadIntString(seconds);
  }

  lemma ReadMinutes(minutes: nat)
    ensures ReadDuration(NatToString(minutes) + "m") == Some(minutes * 60)
  {
    var m := NatToString(minutes);
    ReadUnit(m, 'm');
    assert IndexOf(m, ' ') == |m|;
  }

  lemma ReadHours(hours: nat)
    ensures ReadDuration(NatToString(hours) + "h") == Some(hours * 3600)
  {
    ReadUnit(NatToString(hours), 'h');
  }

  lemma ReadHoursMinutes(hours: nat, minutes: nat)
    ensures ReadDuration(NatToString(hours) + "h " + NatToString(minutes) + "m")
            == Some(hours * 3600 + minutes * 60)
  {
    var h, m := NatToString(hours), NatToString(minutes);
    assert h + "h " + m + "m" == (h + ("h " + m)) + ['m'];
    ReadUnit(h + ("h " + m), 'm');
    ReadHoursMinutesText(h, m, hours, minutes);
  }

  /** The final character of a duration names its unit. */
  lemma ReadUnit(body: string, unit: char)
    requires |body| >= 1
    ensures ReadDuration(body + [unit])
            == if unit == 's' then ReadInt(body)
               else if unit == 'h' then Scaled(ReadNat(body), 3600)
               else if unit == 'm' then ReadMinutesText(body)
               else None
  {
    var t := body + [unit];
    assert t[..|t| - 1] == body;
  }

  lemma ReadHoursMinutesText(h: string, m: string, hours: nat, minutes: nat)
    requires |h| >= 1 && AllDigits(h) && DigitsValue(h) == hours
    requires |m| >= 1 && AllDigits(m) && DigitsValue(m) == minutes
    ensures ReadMinutesText(h + ("h " + m)) == Some(hours * 3600 + minutes * 60)
  {
    var body := h + ("h " + m);
    SpaceAfterHours(h, m);
    HoursMinutesParts(h, m);
    MinutesTextParts(body, |h| + 1, hours, minutes);
  }

  /** The first space of the text of hours and minutes follows the 'h'. */
  lemma SpaceAfterHours(h: string, m: string)
    requires AllDigits(h)
    ensures IndexOf(h + ("h " + m), ' ') == |h| + 1
  {
    var before := h + "h";
    assert h + ("h " + m) == before + [' '] + m;
    forall i | 0 <= i < |before|
      ensures before[i] != ' '
    {
      if i < |h| {
        assert before[i] == h[i] && IsDigit(h[i]);
      }
    }
    IndexOfAfter(before, ' ', m);
  }

  lemma HoursMinutesParts(h: string, m: string)
    ensures var body := h + ("h " + m);
            body[|h|] == 'h' && body[..|h|] == h && body[|h| + 2..] == m
  {
    assert h + ("h " + m) == h + ['h', ' '] + m;
  }

  /** The text of hours and minutes, split at its first space. */
  lemma MinutesTextParts(body: string, k: int, hours: nat, minutes: nat)
    requires 1 <= k < |body| && IndexOf(body, ' ') == k && body[k - 1] == 'h'
    requires ReadNat(body[..k - 1]) == Some(hours) && ReadNat(body[k + 1..]) == Some(minutes)
    ensures ReadMinutesText(body) == Some(hours * 3600 + minutes * 60)
  {
  }

  /** An hour count and a minute count that make up the whole minutes. */
  lemma HoursMinutes(seconds: int)
    requires seconds >= 3600
    ensures seconds / 3600 * 3600 + seconds % 3600 / 60 * 60 == seconds / 60 * 60
  {
    var h, r := seconds / 3600, seconds % 3600;
    assert seconds == h * 3600 + r;
    assert seconds / 60 == h * 60 + r / 60;
  }

  /** One formatted duration: `{"seconds": ..., "formatted": format_time(...)}`. */
  datatype TimeStat = TimeStat(seconds: int, formatted: string)

  function Stat(seconds: int): (r: TimeStat)
    ensures r.seconds == seconds && ReadDuration(r.formatted) == Some(Shown(seconds))
  {
    FormatTimeReadsBack(seconds);
    TimeStat(seconds, FormatTime(seconds))
  }

  /** The dictionary `format_summary_stats` returns. */
  datatype SummaryStats = SummaryStats(
    period: string, startDate: string, endDate: string,
    work: TimeStat, idle: TimeStat, suspicious: TimeStat, realWork: TimeStat,
    screenshots: int, keyboard: int, window: int,
    workPerDay: TimeStat, idlePerDay: TimeStat,
    daily: seq<DayEntry>)

  /** `format_summary_stats(summary, period)`: the totals with their
      formatted text, the averages truncated toward zero (`int(...)`). */
  function FormatSummaryStats(s: RangeSummary, period: string): (r: SummaryStats)
    ensures ReadDuration(r.work.formatted) == Some(Shown(s.totalWork))
    ensures ReadDuration(r.realWork.formatted) == Some(Shown(s.totalRealWork))
    ensures ReadDuration(r.workPerDay.formatted) == Some(Shown(r.workPerDay.seconds))
  {
    SummaryStats(
      period, s.startDate, s.endDate,
      Stat(s.totalWork), Stat(s.totalIdle), Stat(s.totalSuspicious), Stat(s.totalRealWork),
      s.totalScreenshots, s.totalKeyboard, s.totalWindow,
      Stat(Trunc(s.averageWork)), Stat(Trunc(s.averageIdle)),
      s.daily)
  }

  /** For a range summary, the formatted real work is work less suspicious
      time, and each average shown is the total divided by the number of
      logged days, truncated toward zero (0 with no logged day). */
  lemma StatsOfSummary(read: int -> Day<DayEntry>, start: Date, end: Date, period: string)
    requires InRange(start) && InRange(end)
    ensures var r := SummaryOf(read, start, end);
            r.Some? ==>
              var st := FormatSummaryStats(r.value, period);
              var n := |r.value.daily|;
              st.realWork.seconds == st.work.seconds - st.suspicious.seconds &&
              st.workPerDay.seconds == (if n > 0 then TruncDiv(st.work.seconds, n) else 0) &&
              st.idlePerDay.seconds == (if n > 0 then TruncDiv(st.idle.seconds, n) else 0)
  {
    if SummaryOf(read, start, end).Some? {
      var s := SummaryOf(read, start, end).value;
      SummaryAverages(read, start, end);
      if |s.daily| > 0 {
        TruncQuotient(s.totalWork, |s.daily|);
        TruncQuotient(s.totalIdle, |s.daily|);
      }
    }
  }

  /** `int(a / n)` is the quotient truncated toward zero. */
  lemma TruncQuotient(a: int, n: int)
    requires n > 0
    ensures Trunc(a as real / n as real) == TruncDiv(a, n)
  {
    var q := TruncDiv(a, n);
    var x := a as real / n as real;
    QuotientOrder(a, n, q);
    QuotientOrder(a, n, q + 1);
    QuotientOrder(a, n, q - 1);
    if a >= 0 {
      assert q as real <= x < (q + 1) as real;
    } else {
      assert (q - 1) as real < x <= q as real;
    }
  }

  /** Against a positive divisor, `k` is below the real quotient exactly when
      `k` multiples are below the dividend. */
  lemma QuotientOrder(a: int, n: int, k: int)
    requires n > 0
    ensures k * n <= a <==> k as real <= a as real / n as real
    ensures k * n < a <==> k as real < a as real / n as real
  {
    var x := a as real / n as real;
    assert x * n as real == a as real;
    assert (k * n) as real == k as real * n as real;
    assert (x - k as real) * n as real == (a - k * n) as real;
  }
}
