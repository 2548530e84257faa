/** The weekly e-mail report (`EmailReportSender`): which week it covers,
    the productivity figure with its bar and its insight sentence, which
    days get a row of the breakdown table, and the configuration gate in
    front of sending. The summary itself is the desktop range summary; the
    HTML text, the SMTP session and the scheduler are not modelled (the
    outcome of delivery is a parameter). */
module EmailReport {
  import opened Common
  import opened JsonCodec
  import opened Calendar
  import opened DayRange
  import opened DesktopSummary
  import Settings

  // ---------------------------------------------------------------- the week

  /** `start_of_week .. end_of_week` as day numbers: the Monday of today's
      week and the Sunday after it, both moved back seven days on a Friday.
      None where a `timedelta` step leaves the representable dates (the
      Sunday after the last Monday of year 9999, or a week before day one). */
  function WeekNumbers(today: Date): (r: Option<(int, int)>)
    requires InRange(today)
    ensures r.Some? ==> 1 <= r.value.0 && r.value.1 == r.value.0 + 6 <= MaxOrdinal
    ensures r.Some? ==> (r.value.0 + 6) % 7 == 0
    ensures Weekday(today) != 4 ==>
              (r.Some? <==> Ordinal(today) - Weekday(today) + 6 <= MaxOrdinal) &&
              (r.Some? ==> r.value.0 <= Ordinal(today) <= r.value.1)
    ensures Weekday(today) == 4 ==>
              (r.Some? <==> 12 <= Ordinal(today) && Ordinal(today) + 2 <= MaxOrdinal) &&
              (r.Some? ==> r.value.1 == Ordinal(today) - 5)
  {
    var o := Ordinal(today);
    WeekArith(o);
    OrdinalInRange(today);
    var start := o - Weekday(today);
    if start + 6 > MaxOrdinal then None
    else if Weekday(today) == 4 then
      if start - 7 < 1 then None else Some((start - 7, start - 1))
    else Some((start, start + 6))
  }

  /** The two dates of the week the report covers. */
  function ReportWeek(today: Date): (r: Option<(Date, Date)>)
    requires InRange(today)
    ensures r.Some? ==> InRange(r.value.0) && InRange(r.value.1) && Weekday(r.value.0) == 0 &&
                        Ordinal(r.value.1) == Ordinal(r.value.0) + 6
    ensures r.Some? <==> WeekNumbers(today).Some?
    ensures r.Some? ==> Ordinal(r.value.0) == WeekNumbers(today).value.0
  {
    match WeekNumbers(today)
    case None => None
    case Some((s, e)) => Some((DateOf(s), DateOf(e)))
  }

  /** The report is sent on Fridays (the scheduler's day), and then covers
      the whole Monday-to-Sunday week before the current one: it ends five
      days before the Friday. */
  lemma FridayWeek(today: Date)
    requires InRange(today) && Weekday(today) == 4 && 12 <= Ordinal(today) && Ordinal(today) + 2 <= MaxOrdinal
    ensures var r := ReportWeek(today);
            r.Some? && Ordinal(r.value.1) == Ordinal(today) - 5 && Ordinal(r.value.1) < Ordinal(today)
  {
  }

  /** On any other day the week is the current one, today included. */
  lemma OtherDayWeek(today: Date)
    requires InRange(today) && Weekday(today) != 4 && Ordinal(today) - Weekday(today) + 6 <= MaxOrdinal
    ensures var r := ReportWeek(today);
            r.Some? && Ordinal(r.value.0) <= Ordinal(today) <= Ordinal(r.value.1)
  {
  }

  // ---------------------------------------------------------------- the figures

  /** `real_work_hours / work_hours * 100` when any work was recorded, else 0. */
  function Productivity(work: real, realWork: real): (pct: real)
    ensures work > 0.0 ==> pct * work == realWork * 100.0
    ensures work <= 0.0 ==> pct == 0.0
  {
    if work > 0.0 then realWork / work * 100.0 else 0.0
  }

  /** For the hours a summary holds the figure is a percentage: never
      negative, and at most 100 when no suspicious time is negative. */
  lemma ProductivityRange(s: Summary)
    requires s == Summarize(s.daily)
    ensures Productivity(s.workHours, s.realWorkHours) >= 0.0
    ensures s.suspiciousHours >= 0.0 ==> Productivity(s.workHours, s.realWorkHours) <= 100.0
  {
    assert s.realWorkHours == ClampedRealWork(s.workHours, s.suspiciousHours);
    PercentBounds(s.workHours, s.realWorkHours);
  }

  /** A share of a positive whole is a percentage. */
  lemma PercentBounds(work: real, part: real)
    requires part >= 0.0
    ensures Productivity(work, part) >= 0.0
    ensures part <= work ==> Productivity(work, part) <= 100.0
  {
    if work > 0.0 {
      var q := part / work;
      assert q * work == part;
      assert q >= 0.0;
      if part <= work {
        assert q <= 1.0;
      }
      assert Productivity(work, part) == q * 100.0;
    }
  }

  /** `min(productivity_pct, 100)`: the width of the bar. */
  function BarWidth(pct: real): (w: real)
    ensures w <= 100.0 && w <= pct
    ensures w == pct || w == 100.0
  {
    if 100.0 < pct then 100.0 else pct
  }

  datatype Insight = Excellent | Good | RoomForImprovement

  /** The insight sentence: from 90 excellent, from 70 good, otherwise room
      for improvement. */
  function InsightOf(pct: real): Insight
  {
    if pct >= 90.0 then Excellent else if pct >= 70.0 then Good else RoomForImprovement
  }

  lemma InsightBands(pct: real)
    ensures InsightOf(pct) == Excellent <==> pct >= 90.0
    ensures InsightOf(pct) == Good <==> 70.0 <= pct < 90.0
    ensures InsightOf(pct) == RoomForImprovement <==> pct < 70.0
  {
  }

  // ---------------------------------------------------------------- the rows

  /** The days that get a row: those with work, in order. */
  function Active(ds: seq<DesktopDay>): (r: seq<DesktopDay>)
    ensures |r| <= |ds|
  {
    if ds == [] then []
    else Active(ds[..|ds| - 1]) + if ds[|ds| - 1].workHours > 0.0 then [ds[|ds| - 1]] else []
  }

  /** The rows loop: a row appended for each day with work. */
  method DailyRows(ds: seq<DesktopDay>) returns (rows: seq<DesktopDay>)
    ensures rows == Active(ds)
  {
    rows := [];
    var i := 0;
    while i < |ds|
      invariant 0 <= i <= |ds|
      invariant rows == Active(ds[..i])
    {
      assert ds[..i + 1][..i] == ds[..i];
      if ds[i].workHours > 0.0 {
        rows := rows + [ds[i]];
      }
      i := i + 1;
    }
    assert ds[..|ds|] == ds;
  }

  /** A day has a row exactly when it is in the breakdown with work. */
  lemma {:induction false} ActiveMembers(ds: seq<DesktopDay>, d: DesktopDay)
    ensures d in Active(ds) <==> d in ds && d.workHours > 0.0
  {
    if ds != [] {
      var init := ds[..|ds| - 1];
      ActiveMembers(init, d);
      assert ds == init + [ds[|ds| - 1]];
    }
  }

  /** There is one row per day worked, so the table is replaced by the
      no-activity message exactly when no day was worked. */
  lemma {:induction false} ActiveCount(ds: seq<DesktopDay>)
    ensures |Active(ds)| == DaysWorked(ds)
  {
    if ds != [] {
      ActiveCount(ds[..|ds| - 1]);
    }
  }

  // ---------------------------------------------------------------- the report

  datatype Report = Report(
    start: Date, end: Date, summary: Summary,
    productivity: real, barWidth: real, rows: seq<DesktopDay>, insight: Insight)

  /** What `generate_weekly_report_html` fills its template with; None where
      it raises (the week leaves the calendar, or a log cannot be read). */
  function ReportOf(read: int -> Day<DesktopDay>, today: Date): (r: Option<Report>)
    requires InRange(today)
  {
    var (start, end) :- ReportWeek(today);
    var s :- SummaryOf(read, start, end);
    var pct := Productivity(s.workHours, s.realWorkHours);
    Some(Report(start, end, s, pct, BarWidth(pct), Active(s.daily), InsightOf(pct)))
  }

  /** `generate_weekly_report_html`. */
  method WeeklyReport(read: int -> Day<DesktopDay>, today: Date) returns (r: Option<Report>)
    requires InRange(today)
    ensures r == ReportOf(read, today)
  {
    var week := ReportWeek(today);
    if week.None? {
      return None;
    }
    var (start, end) := week.value;
    var s := DateRangeSummary(read, start, end);
    if s.None? {
      return None;
    }
    var summary := s.value;
    var pct := if summary.workHours > 0.0 then summary.realWorkHours / summary.workHours * 100.0 else 0.0;
    var rows := DailyRows(summary.daily);
    r := Some(Report(start, end, summary, pct, BarWidth(pct), rows, InsightOf(pct)));
  }

  /** A report covers seven days at most, one row per day worked, and its
      bar never passes 100. */
  lemma ReportShape(read: int -> Day<DesktopDay>, today: Date)
    requires InRange(today) && ReportOf(read, today).Some?
    ensures var rep := ReportOf(read, today).value;
            |rep.summary.daily| <= 7 && |rep.rows| == rep.summary.daysWorked && rep.barWidth <= 100.0 &&
            rep.productivity >= 0.0 && rep.barWidth >= 0.0
  {
    var (start, end) := ReportWeek(today).value;
    var s := SummaryOf(read, start, end).value;
    WalkedLength(read, Ordinal(start), Ordinal(end));
    ActiveCount(s.daily);
    DaysWorkedCount(s.daily);
    ProductivityRange(s);
  }

  // ---------------------------------------------------------------- sending

  /** The gate of `send_email_report`: e-mail enabled, and the recipient,
      the sender, the server, the user name and the password all set. */
  predicate SendGate(config: seq<Member>)
  {
    Truthy(Settings.Setting(config, "email_enabled")) &&
    Truthy(Settings.Setting(config, "email_to")) &&
    Truthy(Settings.Setting(config, "email_from")) &&
    Truthy(Settings.Setting(config, "smtp_server")) &&
    Truthy(Settings.Setting(config, "smtp_username")) &&
    Truthy(Settings.Setting(config, "smtp_password"))
  }

  /** `send_email_report`: False without building anything when the gate is
      closed; otherwise True exactly when the report was built and the SMTP
      exchange (a parameter) delivered it. */
  function SendReport(config: seq<Member>, read: int -> Day<DesktopDay>, today: Date, delivered: bool): (sent: bool)
    requires InRange(today)
    ensures sent ==> SendGate(config) && delivered
  {
    SendGate(config) && ReportOf(read, today).Some? && delivered
  }

  /** Without a configuration file nothing is ever sent: e-mail is off by
      default. */
  lemma FreshConfigSendsNothing(store: Storage.Store, read: int -> Day<DesktopDay>, today: Date, delivered: bool)
    requires InRange(today) && Settings.ConfigFile !in store
    ensures !SendReport(Settings.LoadConfig(store).value, read, today, delivered)
  {
    assert Settings.LoadConfig(store).value == Settings.Defaults;
    EmailOffByDefault();
  }

  lemma EmailOffByDefault()
    ensures !Truthy(Settings.Setting(Settings.Defaults, "email_enabled"))
  {
    Settings.DefaultSetting(17);
    assert Settings.Defaults[17] == Member("email_enabled", JBool(false));
  }

  /** An empty password, user name, server, sender or recipient closes the
      gate whatever else is set. */
  lemma EmptyFieldClosesGate(config: seq<Member>, key: string)
    requires key in {"email_to", "email_from", "smtp_server", "smtp_username", "smtp_password"}
    requires Lookup(config, key) == Some(JStr(""))
    ensures !SendGate(config)
  {
  }
}
