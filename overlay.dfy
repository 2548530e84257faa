/** The always-on-top overlay: what one refresh (`update_display`) shows,
    computed from today's decoded log and the decoded configuration. Tk
    widgets become a `Display` value; the clock, the parsing of the idle
    mark's ISO timestamp and the subtraction from now are parameters. A
    refresh that raises is None: the labels it had not reached keep their
    old text and no further refresh is scheduled. */
module Overlay {
  import opened Common
  import opened JsonCodec
  import opened Storage
  import opened DayRange
  import Settings
  import ActivityLog

  // ---------------------------------------------------------------- reading the files

  /** `read_work_data`: today's decoded log when its file exists and holds a
      truthy record, `{}` otherwise. */
  function ReadWorkData(store: Store, today: string): (r: Json)
    ensures LogFileName(today) !in store ==> r == JObj([])
    ensures LoadDate(store, today).None? ==> r == JObj([])
    ensures LoadDate(store, today).Some? && Truthy(LoadDate(store, today).value) ==> r == LoadDate(store, today).value
  {
    match LoadDate(store, today)
    case Some(v) => if Truthy(v) then v else JObj([])
    case None => JObj([])
  }

  /** `read_config`: the decoded configuration file when it exists and holds
      a truthy record, `{}` otherwise (no defaults are laid under it). */
  function ReadConfig(store: Store): (r: Json)
    ensures Settings.ConfigFile !in store ==> r == JObj([])
  {
    if Settings.ConfigFile !in store then JObj([])
    else
      match DecodeData(store[Settings.ConfigFile])
      case Some(v) => if Truthy(v) then v else JObj([])
      case None => JObj([])
  }

  // ---------------------------------------------------------------- format_time

  /** `format_time(seconds)` on a whole number of seconds: floor-divided
      hours, then minutes and seconds as two digits each. */
  function FormatClock(n: int): string
  {
    IntToString(n / 3600) + (":" + (Pad2(n % 3600 / 60) + (":" + Pad2(n % 60))))
  }

  /** `format_time` as Python evaluates it on a number of seconds:
      `int(x // 3600)`, `int((x % 3600) // 60)`, `int(x % 60)`. */
  function FormatClockReal(x: real): string
  {
    var h := (x / 3600.0).Floor;
    IntToString(h) + (":" + (Pad2(RealMinutes(x, h)) + (":" + Pad2(RealSeconds(x)))))
  }

  /** `int((x % 3600) // 60)`, where `x % 3600` is `x - 3600 * h`. */
  function RealMinutes(x: real, h: int): (m: int)
    requires h == (x / 3600.0).Floor
    ensures 0 <= m < 60
  {
    FloorParts(x);
    ((x - 3600.0 * h as real) / 60.0).Floor
  }

  /** `int(x % 60)`. */
  function RealSeconds(x: real): (s: int)
    ensures 0 <= s < 60
  {
    FloorParts(x);
    (x - 60.0 * (x / 60.0).Floor as real).Floor
  }

  /** A number of seconds is formatted as its whole part. */
  lemma FormatClockFloor(x: real)
    ensures FormatClockReal(x) == FormatClock(x.Floor)
  {
    FloorParts(x);
  }

  /** The three parts Python computes from a number of seconds are those of
      its whole part. */
  lemma FloorParts(x: real)
    ensures (x / 3600.0).Floor == x.Floor / 3600
    ensures ((x - 3600.0 * (x / 3600.0).Floor as real) / 60.0).Floor == x.Floor % 3600 / 60
    ensures (x - 60.0 * (x / 60.0).Floor as real).Floor == x.Floor % 60
  {
    var n := x.Floor;
    FloorDiv(x, 3600);
    FloorDiv(x, 60);
    FloorShift(x, 3600 * (n / 3600));
    FloorShift(x, 60 * (n / 60));
    FloorDiv(x - (3600 * (n / 3600)) as real, 60);
  }

  /** Floor division of a number by a positive whole divisor floors first. */
  lemma FloorDiv(x: real, d: int)
    requires d > 0
    ensures (x / d as real).Floor == x.Floor / d
  {
    var n, q := x.Floor, x.Floor / d;
    assert q * d <= n < q * d + d;
    ProductAsReal(q, d);
    ProductAsReal(q + 1, d);
    DivideBetween(x, d as real, q as real, (q + 1) as real);
  }

  lemma ProductAsReal(a: int, b: int)
    ensures (a * b) as real == a as real * b as real
  {
  }

  /** Dividing by a positive number keeps a number between two multiples. */
  lemma DivideBetween(x: real, d: real, lo: real, hi: real)
    requires d > 0.0 && lo * d <= x < hi * d
    ensures lo <= x / d < hi
  {
    var y := x / d;
    assert y * d == x;
    assert (y - lo) * d >= 0.0;
    assert (hi - y) * d > 0.0;
  }

  lemma FloorShift(x: real, k: int)
    ensures (x - k as real).Floor == x.Floor - k
  {
  }

  /** Reads `h:mm:ss` back as seconds. */
  function ReadClock(t: string): (r: Option<int>)
    ensures r.Some? ==> |t| >= 7 && t[|t| - 6] == ':' && t[|t| - 3] == ':'
  {
    if |t| < 7 || t[|t| - 6] != ':' || t[|t| - 3] != ':' then None
    else
      var h, m, s := ReadInt(t[..|t| - 6]), ReadNat(t[|t| - 5..|t| - 3]), ReadNat(t[|t| - 2..]);
      if h.Some? && m.Some? && s.Some? then Some(h.value * 3600 + m.value * 60 + s.value) else None
  }

  /** `h:mm:ss` loses nothing: it reads back as the seconds it was made
      from, negative ones included. */
  lemma FormatClockReadsBack(n: int)
    ensures ReadClock(FormatClock(n)) == Some(n)
  {
    ReadClockOf(n / 3600, n % 3600 / 60, n % 60);
    ClockParts(n);
  }

  lemma ClockParts(n: int)
    ensures n / 3600 * 3600 + n % 3600 / 60 * 60 + n % 60 == n
  {
    var q, r := n / 3600, n % 3600;
    assert n == 3600 * q + r;
    assert n == 60 * (60 * q + r / 60) + r % 60;
  }

  lemma ReadClockOf(h: int, m: int, s: int)
    requires 0 <= m < 60 && 0 <= s < 60
    ensures ReadClock(IntToString(h) + (":" + (Pad2(m) + (":" + Pad2(s))))) == Some(h * 3600 + m * 60 + s)
  {
    var hs, ms, ss := IntToString(h), Pad2(m), Pad2(s);
    var t := hs + (":" + (ms + (":" + ss)));
    assert t[..|t| - 6] == hs;
    assert t[|t| - 5..|t| - 3] == ms;
    assert t[|t| - 2..] == ss;
    ReadIntString(h);
  }

  // ---------------------------------------------------------------- the display

  const Red := "#e74c3c"
  const Orange := "#ff9800"
  const Green := "#4CAF50"
  const Blue := "#2196F3"
  const Pink := "#e91e63"
  const Grey := "#888888"
  /** Backgrounds: the normal panel and the idle panel. */
  const Night := "#1a1a2e"
  const Maroon := "#4a1a1a"

  datatype Label = Label(text: string, fg: string)

  /** What one refresh leaves on screen. `panel` is the background of the
      frame and the other labels, None where this refresh leaves it as it
      was. */
  datatype Display = Display(
    time: Label,
    timeBackground: string,
    panel: Option<string>,
    idle: Label,
    clock: string,
    screenshots: string,
    antiCheat: Label)

  /** `current_idle_start is not None`: the key is there and not null. */
  predicate IsIdle(ms: seq<Member>)
  {
    Lookup(ms, "current_idle_start").Some? && Lookup(ms, "current_idle_start").value != JNull
  }

  /** The colour of the work time after `hours = work_secs / 3600`. */
  function HoursColour(hours: real): string
  {
    if hours >= 8.0 then Blue else if hours >= 4.0 then Green else Orange
  }

  /** The colour bands in seconds: blue from eight hours, green from four,
      orange below. */
  lemma HoursColourBands(work: real)
    ensures HoursColour(work / 3600.0) == Blue <==> work >= 28800.0
    ensures HoursColour(work / 3600.0) == Green <==> 14400.0 <= work < 28800.0
    ensures HoursColour(work / 3600.0) == Orange <==> work < 14400.0
  {
  }

  /** `int(idle_secs // 60)`. */
  function IdleMinutes(idle: real): (r: int)
    ensures r == idle.Floor / 60
  {
    FloorDiv(idle, 60);
    (idle / 60.0).Floor
  }

  /** `f"IDLE: {idle_str}"`. */
  function IdleText(clock: string): (r: string)
    ensures |r| >= 4 && r[..4] == "IDLE"
  {
    "IDLE" + (": " + clock)
  }

  /** `f"Work: {work_str}"`. */
  function WorkText(clock: string): (r: string)
    ensures |r| >= 4 && r[..4] == "Work"
  {
    "Work" + (": " + clock)
  }

  /** The time label: the running idle time (or just IDLE where the mark
      cannot be read) on the idle background, else the work time coloured
      by its band; None where the work counter cannot be formatted. */
  function TimeLabel(ms: seq<Member>, since: Json -> Option<real>): (r: Option<(Label, string, Option<string>)>)
    ensures r.Some? ==> |r.value.0.text| >= 4 && (IsIdle(ms) <==> r.value.0.text[..4] == "IDLE")
    ensures IsIdle(ms) ==> r.Some? && r.value.0.fg == Red && r.value.1 == Maroon
    ensures !IsIdle(ms) ==> (r.Some? <==> NumberField(ms, "work_seconds").Some?)
  {
    if IsIdle(ms) then
      match since(Lookup(ms, "current_idle_start").value)
      case Some(elapsed) => Some((Label(IdleText(FormatClockReal(elapsed)), Red), Maroon, Some(Maroon)))
      case None => Some((Label("IDLE", Red), Maroon, None))
    else
      match NumberField(ms, "work_seconds")
      case Some(work) => Some((Label(WorkText(FormatClockReal(work)), HoursColour(work / 3600.0)), Night, Some(Night)))
      case None => None
  }

  /** The anti-cheat label: OFF when disabled, else ALERT with the event
      count when there is an event or more than a minute of suspicious
      time, else ON. The suspicious time is compared only when there is no
      event (None where that comparison raises). */
  function AntiCheatLabel(enabled: bool, events: nat, suspicious: Option<real>): (r: Option<Label>)
    ensures !enabled ==> r == Some(Label("Anti-Cheat: OFF", Grey))
    ensures enabled && events > 0 ==> r.Some? && r.value.fg == Pink
    ensures enabled && events == 0 ==> (r.Some? <==> suspicious.Some?)
  {
    if !enabled then Some(Label("Anti-Cheat: OFF", Grey))
    else if events > 0 then Some(Label("Anti-Cheat: " + NatToString(events) + " ALERT", Pink))
    else
      match suspicious
      case Some(secs) =>
        if secs > 60.0 then Some(Label("Anti-Cheat: 0 ALERT", Pink)) else Some(Label("Anti-Cheat: ON", Green))
      case None => None
  }

  /** The alert shows exactly when the source's condition holds. */
  lemma AntiCheatCases(enabled: bool, events: nat, secs: real)
    ensures var r := AntiCheatLabel(enabled, events, Some(secs));
            r.Some? &&
            (r.value.fg == Grey <==> !enabled) &&
            (r.value.fg == Pink <==> enabled && (events > 0 || secs > 60.0)) &&
            (r.value.fg == Green <==> enabled && events == 0 && secs <= 60.0)
  {
  }

  /** `config.get('anticheat_enabled', True)` as a condition. */
  function AntiCheatOn(config: seq<Member>): bool
  {
    match Lookup(config, "anticheat_enabled")
    case Some(v) => Truthy(v)
    case None => true
  }

  /** `update_display`: None where Python raises (a record or configuration
      that is not a dictionary, a counter that is not a number, a list that
      has no length). */
  function Render(data: Json, config: Json, since: Json -> Option<real>, hour: int, minute: int): (r: Option<Display>)
    requires 0 <= hour < 24 && 0 <= minute < 60
    ensures r.Some? ==> data.JObj? && config.JObj?
    ensures r.Some? ==> |r.value.time.text| >= 4 && (IsIdle(data.members) <==> r.value.time.text[..4] == "IDLE")
    ensures r.Some? ==> r.value.idle.fg == if IsIdle(data.members) then Red else Orange
    ensures r.Some? ==> r.value.clock == Pad2(hour) + ":" + Pad2(minute)
  {
    if !data.JObj? || !config.JObj? then None
    else
      var ms := data.members;
      var shots, events := SizeField(ms, "screenshots"), SizeField(ms, "suspicious_events");
      var time := TimeLabel(ms, since);
      var idle := NumberField(ms, "idle_seconds");
      var antiCheat := if events.Some? then AntiCheatLabel(AntiCheatOn(config.members), events.value, NumberField(ms, "suspicious_seconds")) else None;
      if shots.None? || events.None? || time.None? || idle.None? || antiCheat.None? then None
      else
        var (timeLabel, timeBackground, panel) := time.value;
        Some(Display(
          timeLabel, timeBackground, panel,
          Label("Idle: " + IntToString(IdleMinutes(idle.value)) + "m", if IsIdle(ms) then Red else Orange),
          Pad2(hour) + ":" + Pad2(minute),
          "Screenshots: " + NatToString(shots.value),
          antiCheat.value))
  }

  /** A dictionary whose counters and lists all read renders; what it shows. */
  lemma RenderFields(ms: seq<Member>, config: seq<Member>, since: Json -> Option<real>, hour: int, minute: int,
                     work: real, idle: real, shots: nat, events: nat, secs: real)
    requires 0 <= hour < 24 && 0 <= minute < 60
    requires NumberField(ms, "work_seconds") == Some(work) && NumberField(ms, "idle_seconds") == Some(idle)
    requires SizeField(ms, "screenshots") == Some(shots) && SizeField(ms, "suspicious_events") == Some(events)
    requires NumberField(ms, "suspicious_seconds") == Some(secs)
    ensures var r := Render(JObj(ms), JObj(config), since, hour, minute);
            r.Some? &&
            (!IsIdle(ms) ==> r.value.time == Label(WorkText(FormatClockReal(work)), HoursColour(work / 3600.0))) &&
            r.value.idle.text == "Idle: " + IntToString(IdleMinutes(idle)) + "m" &&
            r.value.screenshots == "Screenshots: " + NatToString(shots) &&
            r.value.antiCheat == AntiCheatLabel(AntiCheatOn(config), events, Some(secs)).value
  {
  }

  /** With no usable log for today every counter shows zero: no work time
      (in orange), no idle minutes, no screenshots, and the anti-cheat label
      ON or OFF as configured. */
  lemma MissingLogShowsZero(store: Store, today: string, config: seq<Member>, since: Json -> Option<real>, hour: int, minute: int)
    requires 0 <= hour < 24 && 0 <= minute < 60
    requires LoadDate(store, today).None? || !Truthy(LoadDate(store, today).value)
    ensures var r := Render(ReadWorkData(store, today), JObj(config), since, hour, minute);
            r.Some? &&
            r.value.time == Label(WorkText("0:00:00"), Orange) &&
            r.value.idle == Label("Idle: 0m", Orange) &&
            r.value.screenshots == "Screenshots: 0" &&
            r.value.antiCheat == if AntiCheatOn(config) then Label("Anti-Cheat: ON", Green) else Label("Anti-Cheat: OFF", Grey)
  {
    assert ReadWorkData(store, today) == JObj([]);
    RenderFields([], config, since, hour, minute, 0.0, 0.0, 0, 0, 0.0);
    ZeroClock();
    assert IntToString(0) == "0";
  }

  lemma ZeroClock()
    ensures FormatClockReal(0.0) == "0:00:00"
  {
    FormatClockFloor(0.0);
    assert FormatClock(0) == "0" + (":" + ("00" + (":" + "00")));
  }

  /** A record the monitor wrote always renders, whatever the configuration
      object holds: idle exactly when it carries an open idle mark, otherwise
      its work seconds as `h:mm:ss`; its idle seconds in whole minutes and
      its screenshot count. */
  lemma MonitorRecordShown(log: ActivityLog.DayLog, config: seq<Member>, since: Json -> Option<real>, hour: int, minute: int)
    requires 0 <= hour < 24 && 0 <= minute < 60
    ensures var r := Render(ActivityLog.ToJson(log), JObj(config), since, hour, minute);
            r.Some? &&
            |r.value.time.text| >= 4 && (r.value.time.text[..4] == "IDLE" <==> log.currentIdleStart.Some?) &&
            (log.currentIdleStart.None? ==> r.value.time.text == WorkText(FormatClock(log.workSeconds))) &&
            r.value.idle.text == "Idle: " + IntToString(log.idleSeconds / 60) + "m" &&
            r.value.screenshots == "Screenshots: " + NatToString(|log.screenshots|)
  {
    var ms := ActivityLog.ToJson(log).members;
    MonitorFields(log);
    RenderFields(ms, config, since, hour, minute, log.workSeconds as real, log.idleSeconds as real,
                 |log.screenshots|, |log.suspiciousEvents|, log.suspiciousSeconds as real);
    FormatClockFloor(log.workSeconds as real);
  }

  /** The fields of a record the monitor wrote, as the overlay reads them. */
  lemma MonitorFields(log: ActivityLog.DayLog)
    ensures var ms := ActivityLog.ToJson(log).members;
            NumberField(ms, "work_seconds") == Some(log.workSeconds as real) &&
            NumberField(ms, "idle_seconds") == Some(log.idleSeconds as real) &&
            NumberField(ms, "suspicious_seconds") == Some(log.suspiciousSeconds as real) &&
            SizeField(ms, "screenshots") == Some(|log.screenshots|) &&
            SizeField(ms, "suspicious_events") == Some(|log.suspiciousEvents|) &&
            (IsIdle(ms) <==> log.currentIdleStart.Some?)
  {
    MonitorCounters(log);
    MonitorLists(log);
  }

  lemma MonitorCounters(log: ActivityLog.DayLog)
    ensures var ms := ActivityLog.ToJson(log).members;
            NumberField(ms, "work_seconds") == Some(log.workSeconds as real) &&
            NumberField(ms, "idle_seconds") == Some(log.idleSeconds as real) &&
            NumberField(ms, "suspicious_seconds") == Some(log.suspiciousSeconds as real)
  {
    IntCounter(log, 1, "work_seconds", log.workSeconds);
    IntCounter(log, 2, "idle_seconds", log.idleSeconds);
    IntCounter(log, 4, "suspicious_seconds", log.suspiciousSeconds);
  }

  lemma IntCounter(log: ActivityLog.DayLog, k: int, key: string, i: int)
    requires 0 <= k < 13 && ActivityLog.ToJson(log).members[k] == Member(key, JInt(i))
    ensures NumberField(ActivityLog.ToJson(log).members, key) == Some(i as real)
  {
    ActivityLog.FieldIs(log, k, key, JInt(i));
  }

  lemma MonitorLists(log: ActivityLog.DayLog)
    ensures var ms := ActivityLog.ToJson(log).members;
            SizeField(ms, "screenshots") == Some(|log.screenshots|) &&
            SizeField(ms, "suspicious_events") == Some(|log.suspiciousEvents|) &&
            (IsIdle(ms) <==> log.currentIdleStart.Some?)
  {
    ActivityLog.FieldIs(log, 5, "screenshots", JArr(ActivityLog.ListJson(log.screenshots, ActivityLog.ScreenshotJson)));
    ActivityLog.FieldIs(log, 8, "suspicious_events", JArr(ActivityLog.ListJson(log.suspiciousEvents, ActivityLog.EventJson)));
    ActivityLog.FieldIs(log, 12, "current_idle_start", ActivityLog.OptionalTimeJson(log.currentIdleStart));
  }
}
