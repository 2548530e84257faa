/** The daily activity log (`ActivityLogger`): one record per calendar day,
    kept in memory, rewritten to that day's file after every change, and the
    summary of it the program displays. Clock readings are whole seconds
    passed in by the caller (`datetime.now()` in the program). */
module ActivityLog {
  import opened Common
  import opened JsonCodec
  import opened Storage

  datatype Screenshot = Screenshot(time: int, path: string, suspicious: bool)

  datatype SuspiciousEvent = SuspiciousEvent(time: int, duration: int, reason: string)

  datatype IdlePeriod = IdlePeriod(left: int, returned: int, durationSeconds: int)

  /** The thirteen fields of a day's record. */
  datatype DayLog = DayLog(
    date: string,
    workSeconds: int,
    idleSeconds: int,
    overtimeSeconds: int,
    suspiciousSeconds: int,
    screenshots: seq<Screenshot>,
    sessions: seq<Json>,
    currentSessionStart: Json,
    suspiciousEvents: seq<SuspiciousEvent>,
    keyboardActivityCount: int,
    windowChangeCount: int,
    idlePeriods: seq<IdlePeriod>,
    currentIdleStart: Option<int>)

  /** The record `load_today` starts a day with when nothing usable is on disk. */
  function FreshLog(date: string): (r: DayLog)
    ensures r.date == date
    ensures r.workSeconds == r.idleSeconds == r.overtimeSeconds == r.suspiciousSeconds == 0
    ensures r.screenshots == [] && r.suspiciousEvents == [] && r.idlePeriods == []
    ensures r.currentIdleStart == None && r.currentSessionStart == JNull
  {
    DayLog(date, 0, 0, 0, 0, [], [], JNull, [], 0, 0, [], None)
  }

  // ---------------------------------------------------------------- JSON form

  function ScreenshotJson(s: Screenshot): Json
  {
    JObj([Member("time", JInt(s.time)), Member("path", JStr(s.path)), Member("suspicious", JBool(s.suspicious))])
  }

  function EventJson(e: SuspiciousEvent): Json
  {
    JObj([Member("time", JInt(e.time)), Member("duration", JInt(e.duration)), Member("reason", JStr(e.reason))])
  }

  function PeriodJson(p: IdlePeriod): Json
  {
    JObj([Member("left", JInt(p.left)), Member("returned", JInt(p.returned)), Member("duration_seconds", JInt(p.durationSeconds))])
  }

  function OptionalTimeJson(t: Option<int>): Json
  {
    match t
    case None => JNull
    case Some(x) => JInt(x)
  }

  /** A list stored item by item. */
  function ListJson<T>(xs: seq<T>, write: T -> Json): (r: seq<Json>)
    ensures |r| == |xs|
  {
    if xs == [] then [] else ListJson(xs[..|xs| - 1], write) + [write(xs[|xs| - 1])]
  }

  // The keys of a day's record.
  const DateKey := "date"
  const WorkSecondsKey := "work_seconds"
  const IdleSecondsKey := "idle_seconds"
  const OvertimeSecondsKey := "overtime_seconds"
  const SuspiciousSecondsKey := "suspicious_seconds"
  const ScreenshotsKey := "screenshots"
  const SessionsKey := "sessions"
  const CurrentSessionStartKey := "current_session_start"
  const SuspiciousEventsKey := "suspicious_events"
  const KeyboardActivityCountKey := "keyboard_activity_count"
  const WindowChangeCountKey := "window_change_count"
  const IdlePeriodsKey := "idle_periods"
  const CurrentIdleStartKey := "current_idle_start"

  /** The dictionary the program keeps for a day, keys in the order of the
      fresh record. */
  function ToJson(log: DayLog): (r: Json)
    ensures r.JObj? && |r.members| == 13
  {
    JObj([
      Member(DateKey, JStr(log.date)),
      Member(WorkSecondsKey, JInt(log.workSeconds)),
      Member(IdleSecondsKey, JInt(log.idleSeconds)),
      Member(OvertimeSecondsKey, JInt(log.overtimeSeconds)),
      Member(SuspiciousSecondsKey, JInt(log.suspiciousSeconds)),
      Member(ScreenshotsKey, JArr(ListJson(log.screenshots, ScreenshotJson))),
      Member(SessionsKey, JArr(log.sessions)),
      Member(CurrentSessionStartKey, log.currentSessionStart),
      Member(SuspiciousEventsKey, JArr(ListJson(log.suspiciousEvents, EventJson))),
      Member(KeyboardActivityCountKey, JInt(log.keyboardActivityCount)),
      Member(WindowChangeCountKey, JInt(log.windowChangeCount)),
      Member(IdlePeriodsKey, JArr(ListJson(log.idlePeriods, PeriodJson))),
      Member(CurrentIdleStartKey, OptionalTimeJson(log.currentIdleStart))
    ])
  }

  function GetInt(ms: seq<Member>, key: string): Option<int>
  {
    match Lookup(ms, key)
    case Some(JInt(i)) => Some(i)
    case _ => None
  }

  function GetStr(ms: seq<Member>, key: string): Option<string>
  {
    match Lookup(ms, key)
    case Some(JStr(s)) => Some(s)
    case _ => None
  }

  function GetBool(ms: seq<Member>, key: string): Option<bool>
  {
    match Lookup(ms, key)
    case Some(JBool(b)) => Some(b)
    case _ => None
  }

  function GetArr(ms: seq<Member>, key: string): Option<seq<Json>>
  {
    match Lookup(ms, key)
    case Some(JArr(items)) => Some(items)
    case _ => None
  }

  function GetAny(ms: seq<Member>, key: string): Option<Json>
  {
    Lookup(ms, key)
  }

  function GetOptionalTime(ms: seq<Member>, key: string): Option<Option<int>>
  {
    match Lookup(ms, key)
    case Some(JNull) => Some(None)
    case Some(JInt(t)) => Some(Some(t))
    case _ => None
  }

  function ScreenshotFromJson(v: Json): Option<Screenshot>
  {
    if !v.JObj? then None
    else
      var time :- GetInt(v.members, "time");
      var path :- GetStr(v.members, "path");
      var suspicious :- GetBool(v.members, "suspicious");
      Some(Screenshot(time, path, suspicious))
  }

  function EventFromJson(v: Json): Option<SuspiciousEvent>
  {
    if !v.JObj? then None
    else
      var time :- GetInt(v.members, "time");
      var duration :- GetInt(v.members, "duration");
      var reason :- GetStr(v.members, "reason");
      Some(SuspiciousEvent(time, duration, reason))
  }

  function PeriodFromJson(v: Json): Option<IdlePeriod>
  {
    if !v.JObj? then None
    else
      var left :- GetInt(v.members, "left");
      var returned :- GetInt(v.members, "returned");
      var duration :- GetInt(v.members, "duration_seconds");
      Some(IdlePeriod(left, returned, duration))
  }

  /** A stored list read back item by item; None when an item does not read. */
  function ListFromJson<T>(items: seq<Json>, read: Json -> Option<T>): Option<seq<T>>
  {
    if items == [] then Some([])
    else
      var init :- ListFromJson(items[..|items| - 1], read);
      var last :- read(items[|items| - 1]);
      Some(init + [last])
  }

  /** A stored dictionary read back as a day's record; None when a field is
      missing or of the wrong kind. */
  function FromJson(v: Json): Option<DayLog>
  {
    if !v.JObj? then None
    else
      var ms := v.members;
      var date :- GetStr(ms, DateKey);
      var work :- GetInt(ms, WorkSecondsKey);
      var idle :- GetInt(ms, IdleSecondsKey);
      var overtime :- GetInt(ms, OvertimeSecondsKey);
      var suspicious :- GetInt(ms, SuspiciousSecondsKey);
      var shotItems :- GetArr(ms, ScreenshotsKey);
      var shots :- ListFromJson(shotItems, ScreenshotFromJson);
      var sessions :- GetArr(ms, SessionsKey);
      var sessionStart :- GetAny(ms, CurrentSessionStartKey);
      var eventItems :- GetArr(ms, SuspiciousEventsKey);
      var events :- ListFromJson(eventItems, EventFromJson);
      var keyboard :- GetInt(ms, KeyboardActivityCountKey);
      var windows :- GetInt(ms, WindowChangeCountKey);
      var periodItems :- GetArr(ms, IdlePeriodsKey);
      var periods :- ListFromJson(periodItems, PeriodFromJson);
      var idleStart :- GetOptionalTime(ms, CurrentIdleStartKey);
      Some(DayLog(date, work, idle, overtime, suspicious, shots, sessions, sessionStart,
                  events, keyboard, windows, periods, idleStart))
  }

  lemma ScreenshotRoundTrip(s: Screenshot)
    ensures ScreenshotFromJson(ScreenshotJson(s)) == Some(s)
  {
    var ms := ScreenshotJson(s).members;
    LookupDistinct(ms, 0);
    LookupDistinct(ms, 1);
    LookupDistinct(ms, 2);
  }

  lemma EventRoundTrip(e: SuspiciousEvent)
    ensures EventFromJson(EventJson(e)) == Some(e)
  {
    var ms := EventJson(e).members;
    LookupDistinct(ms, 0);
    LookupDistinct(ms, 1);
    LookupDistinct(ms, 2);
  }

  lemma PeriodRoundTrip(p: IdlePeriod)
    ensures PeriodFromJson(PeriodJson(p)) == Some(p)
  {
    var ms := PeriodJson(p).members;
    LookupDistinct(ms, 0);
    LookupDistinct(ms, 1);
    LookupDistinct(ms, 2);
  }

  /** A list whose items survive storing survives storing. */
  lemma {:induction false} ListRoundTrip<T>(xs: seq<T>, write: T -> Json, read: Json -> Option<T>)
    requires forall x :: read(write(x)) == Some(x)
    ensures ListFromJson(ListJson(xs, write), read) == Some(xs)
  {
    if xs != [] {
      var init, last := xs[..|xs| - 1], xs[|xs| - 1];
      var items := ListJson(xs, write);
      assert items[..|items| - 1] == ListJson(init, write);
      ListRoundTrip(init, write, read);
      assert init + [last] == xs;
    }
  }

  lemma ScreenshotsRoundTrip(ss: seq<Screenshot>)
    ensures ListFromJson(ListJson(ss, ScreenshotJson), ScreenshotFromJson) == Some(ss)
  {
    forall s ensures ScreenshotFromJson(ScreenshotJson(s)) == Some(s) {
      ScreenshotRoundTrip(s);
    }
    ListRoundTrip(ss, ScreenshotJson, ScreenshotFromJson);
  }

  lemma EventsRoundTrip(es: seq<SuspiciousEvent>)
    ensures ListFromJson(ListJson(es, EventJson), EventFromJson) == Some(es)
  {
    forall e ensures EventFromJson(EventJson(e)) == Some(e) {
      EventRoundTrip(e);
    }
    ListRoundTrip(es, EventJson, EventFromJson);
  }

  lemma PeriodsRoundTrip(ps: seq<IdlePeriod>)
    ensures ListFromJson(ListJson(ps, PeriodJson), PeriodFromJson) == Some(ps)
  {
    forall p ensures PeriodFromJson(PeriodJson(p)) == Some(p) {
      PeriodRoundTrip(p);
    }
    ListRoundTrip(ps, PeriodJson, PeriodFromJson);
  }

  lemma LogKeysDistinct(log: DayLog)
    ensures var ms := ToJson(log).members;
            forall i, j :: 0 <= i < j < |ms| ==> ms[i].key != ms[j].key
  {
  }

  lemma FieldLookup(log: DayLog, k: int)
    requires 0 <= k < 13
    ensures var ms := ToJson(log).members;
            Lookup(ms, ms[k].key) == Some(ms[k].value)
  {
    LogKeysDistinct(log);
    LookupDistinct(ToJson(log).members, k);
  }

  lemma FieldIs(log: DayLog, k: int, key: string, v: Json)
    requires 0 <= k < 13 && ToJson(log).members[k] == Member(key, v)
    ensures Lookup(ToJson(log).members, key) == Some(v)
  {
    FieldLookup(log, k);
  }

  lemma IntFieldIs(log: DayLog, k: int, key: string, i: int)
    requires 0 <= k < 13 && ToJson(log).members[k] == Member(key, JInt(i))
    ensures GetInt(ToJson(log).members, key) == Some(i)
  {
    FieldIs(log, k, key, JInt(i));
  }

  lemma ArrFieldIs(log: DayLog, k: int, key: string, items: seq<Json>)
    requires 0 <= k < 13 && ToJson(log).members[k] == Member(key, JArr(items))
    ensures GetArr(ToJson(log).members, key) == Some(items)
  {
    FieldIs(log, k, key, JArr(items));
  }

  lemma TimeFieldIs(log: DayLog, k: int, key: string, time: Option<int>)
    requires 0 <= k < 13 && ToJson(log).members[k] == Member(key, OptionalTimeJson(time))
    ensures GetOptionalTime(ToJson(log).members, key) == Some(time)
  {
    FieldIs(log, k, key, OptionalTimeJson(time));
  }

  /** The time counters of the stored dictionary read back as the record's. */
  lemma CounterLookups(log: DayLog)
    ensures var ms := ToJson(log).members;
      GetInt(ms, WorkSecondsKey) == Some(log.workSeconds) &&
      GetInt(ms, IdleSecondsKey) == Some(log.idleSeconds) &&
      GetInt(ms, OvertimeSecondsKey) == Some(log.overtimeSeconds) &&
      GetInt(ms, SuspiciousSecondsKey) == Some(log.suspiciousSeconds)
  {
    WorkLookup(log);
    IdleLookup(log);
    OvertimeLookup(log);
    SuspiciousLookup(log);
  }

  lemma WorkLookup(log: DayLog)
    ensures GetInt(ToJson(log).members, WorkSecondsKey) == Some(log.workSeconds)
  {
    IntFieldIs(log, 1, WorkSecondsKey, log.workSeconds);
  }

  lemma IdleLookup(log: DayLog)
    ensures GetInt(ToJson(log).members, IdleSecondsKey) == Some(log.idleSeconds)
  {
    IntFieldIs(log, 2, IdleSecondsKey, log.idleSeconds);
  }

  lemma OvertimeLookup(log: DayLog)
    ensures GetInt(ToJson(log).members, OvertimeSecondsKey) == Some(log.overtimeSeconds)
  {
    IntFieldIs(log, 3, OvertimeSecondsKey, log.overtimeSeconds);
  }

  lemma SuspiciousLookup(log: DayLog)
    ensures GetInt(ToJson(log).members, SuspiciousSecondsKey) == Some(log.suspiciousSeconds)
  {
    IntFieldIs(log, 4, SuspiciousSecondsKey, log.suspiciousSeconds);
  }

  /** The date and activity counts of the stored dictionary read back as the record's. */
  lemma CountLookups(log: DayLog)
    ensures var ms := ToJson(log).members;
      GetStr(ms, DateKey) == Some(log.date) &&
      GetInt(ms, KeyboardActivityCountKey) == Some(log.keyboardActivityCount) &&
      GetInt(ms, WindowChangeCountKey) == Some(log.windowChangeCount)
  {
    FieldIs(log, 0, DateKey, JStr(log.date));
    IntFieldIs(log, 9, KeyboardActivityCountKey, log.keyboardActivityCount);
    IntFieldIs(log, 10, WindowChangeCountKey, log.windowChangeCount);
  }

  /** The lists of the stored dictionary read back as the record's. */
  lemma ListLookups(log: DayLog)
    ensures var ms := ToJson(log).members;
      GetArr(ms, ScreenshotsKey) == Some(ListJson(log.screenshots, ScreenshotJson)) &&
      GetArr(ms, SuspiciousEventsKey) == Some(ListJson(log.suspiciousEvents, EventJson)) &&
      GetArr(ms, IdlePeriodsKey) == Some(ListJson(log.idlePeriods, PeriodJson))
  {
    ArrFieldIs(log, 5, ScreenshotsKey, ListJson(log.screenshots, ScreenshotJson));
    ArrFieldIs(log, 8, SuspiciousEventsKey, ListJson(log.suspiciousEvents, EventJson));
    ArrFieldIs(log, 11, IdlePeriodsKey, ListJson(log.idlePeriods, PeriodJson));
  }

  /** The session fields and the open idle mark of the stored dictionary read back as the record's. */
  lemma SessionLookups(log: DayLog)
    ensures var ms := ToJson(log).members;
      GetArr(ms, SessionsKey) == Some(log.sessions) &&
      GetAny(ms, CurrentSessionStartKey) == Some(log.currentSessionStart) &&
      GetOptionalTime(ms, CurrentIdleStartKey) == Some(log.currentIdleStart)
  {
    ArrFieldIs(log, 6, SessionsKey, log.sessions);
    FieldIs(log, 7, CurrentSessionStartKey, log.currentSessionStart);
    TimeFieldIs(log, 12, CurrentIdleStartKey, log.currentIdleStart);
  }

  /** Every record survives being stored as a dictionary and read back. */
  lemma FromJsonToJson(log: DayLog)
    ensures FromJson(ToJson(log)) == Some(log)
  {
    CounterLookups(log);
    CountLookups(log);
    ListLookups(log);
    SessionLookups(log);
    ScreenshotsRoundTrip(log.screenshots);
    EventsRoundTrip(log.suspiciousEvents);
    PeriodsRoundTrip(log.idlePeriods);
  }

  // ---------------------------------------------------------------- loading and saving

  /** The data directory after the record of a day is written under the file
      name of `today`. */
  function Written(store: Store, today: string, log: DayLog): (r: Store)
    ensures LogFileName(today) in r && r.Keys == store.Keys + {LogFileName(today)}
  {
    store[LogFileName(today) := EncodeData(ToJson(log))]
  }

  /** `load_today`: the stored record when today's file decodes to a
      non-empty dictionary that reads as a record (`FromJson`), the fresh
      record otherwise. The program returns any truthy decoded value as it
      is; the record here is typed, so a truthy value that does not read as
      a record loads as the fresh record (`LoadTodayUnreadable`). */
  function LoadToday(store: Store, today: string): (r: DayLog)
    ensures LogFileName(today) !in store ==> r == FreshLog(today)
  {
    match LoadDate(store, today)
    case None => FreshLog(today)
    case Some(v) =>
      if !Truthy(v) then FreshLog(today)
      else
        match FromJson(v)
        case None => FreshLog(today)
        case Some(log) => log
  }

  /** Saving a record and loading the same day gives the record back. */
  lemma LoadTodayWritten(store: Store, today: string, log: DayLog)
    ensures LoadToday(Written(store, today, log), today) == log
  {
    var v := ToJson(log);
    LoadDateAfterWrite(store, today, v);
    FromJsonToJson(log);
    LoadTodayDecoded(Written(store, today, log), today, v, log);
  }

  /** A day whose file decodes to a non-empty dictionary that reads as a
      record loads as that record. */
  lemma LoadTodayDecoded(store: Store, today: string, v: Json, log: DayLog)
    requires LoadDate(store, today) == Some(v) && v.JObj? && v.members != [] && FromJson(v) == Some(log)
    ensures LoadToday(store, today) == log
  {
  }

  /** A day whose file decodes to a truthy value that does not read as a
      record (a missing key, a counter that is not an integer, a list)
      loads as the fresh record, where the program would keep the value. */
  lemma LoadTodayUnreadable(store: Store, today: string, v: Json)
    requires LoadDate(store, today) == Some(v) && Truthy(v) && FromJson(v).None?
    ensures LoadToday(store, today) == FreshLog(today)
  {
  }

  /** Saving one day's file leaves what every other day loads unchanged. */
  lemma LoadOtherDayWritten(store: Store, today: string, other: string, log: DayLog)
    requires other != today
    ensures LoadToday(Written(store, today, log), other) == LoadToday(store, other)
  {
    LoadDateOtherWrite(store, today, other, ToJson(log));
  }

  /** The logger never starts a new record at midnight: the first save after
      the date changes stores the previous day's record, with its date and its
      counters, as the new day's log. */
  lemma NewDayReceivesOldRecord(store: Store, log: DayLog, today: string)
    requires log.date != today
    ensures LoadToday(Written(store, today, log), today).date != today
    ensures LoadToday(Written(store, today, log), today).workSeconds == log.workSeconds
  {
    LoadTodayWritten(store, today, log);
  }

  /** Every recorded idle period lasted more than a minute and its duration
      is the time between leaving and returning. */
  predicate IdlePeriodsSound(log: DayLog)
  {
    forall i :: 0 <= i < |log.idlePeriods| ==>
      log.idlePeriods[i].durationSeconds > 60 &&
      log.idlePeriods[i].durationSeconds == log.idlePeriods[i].returned - log.idlePeriods[i].left
  }

  /** `add_work_time` on the record. */
  function WithWork(log: DayLog, seconds: int): DayLog
  {
    log.(workSeconds := log.workSeconds + seconds)
  }

  /** `add_idle_time` on the record. */
  function WithIdle(log: DayLog, seconds: int): DayLog
  {
    log.(idleSeconds := log.idleSeconds + seconds)
  }

  /** `add_screenshot` on the record. */
  function WithScreenshot(log: DayLog, shot: Screenshot): DayLog
  {
    log.(screenshots := log.screenshots + [shot])
  }

  /** `update_activity_counts` on the record: both counts overwritten. */
  function WithCounts(log: DayLog, keyboardCount: int, windowCount: int): DayLog
  {
    log.(keyboardActivityCount := keyboardCount, windowChangeCount := windowCount)
  }

  /** `add_suspicious_time` on the record: the seconds always count, and a
      flagged event is appended only when a reason is given. */
  function WithSuspicious(log: DayLog, seconds: int, reason: string, now: int): DayLog
  {
    log.(suspiciousSeconds := log.suspiciousSeconds + seconds,
         suspiciousEvents := log.suspiciousEvents + if reason != [] then [SuspiciousEvent(now, seconds, reason)] else [])
  }

  /** `start_idle_period` on the record: the mark is set unless one is open. */
  function OpenedIdle(log: DayLog, now: int): DayLog
  {
    if log.currentIdleStart.None? then log.(currentIdleStart := Some(now)) else log
  }

  /** `end_idle_period` on the record: an open period that lasted more than a
      minute is appended, and an open mark is cleared. */
  function ClosedIdle(log: DayLog, now: int): DayLog
  {
    match log.currentIdleStart
    case None => log
    case Some(start) =>
      var periods := log.idlePeriods + if now - start > 60 then [IdlePeriod(start, now, now - start)] else [];
      log.(idlePeriods := periods, currentIdleStart := None)
  }

  /** Opening leaves a mark open and the recorded periods as they were. */
  lemma OpenedIdleMarks(log: DayLog, now: int)
    ensures var r := OpenedIdle(log, now);
            r.currentIdleStart.Some? && r.idlePeriods == log.idlePeriods &&
            r.currentIdleStart == if log.currentIdleStart.Some? then log.currentIdleStart else Some(now)
    ensures IdlePeriodsSound(log) ==> IdlePeriodsSound(OpenedIdle(log, now))
  {
  }

  /** Closing leaves no mark open, appends at most the period that was open,
      and only one that lasted more than a minute: the recorded periods stay
      sound. */
  lemma ClosedIdleSound(log: DayLog, now: int)
    ensures var r := ClosedIdle(log, now);
            r.currentIdleStart == None &&
            |log.idlePeriods| <= |r.idlePeriods| <= |log.idlePeriods| + 1 &&
            r.idlePeriods[..|log.idlePeriods|] == log.idlePeriods
    ensures var r := ClosedIdle(log, now);
            |r.idlePeriods| == |log.idlePeriods| + 1 <==>
              log.currentIdleStart.Some? && now - log.currentIdleStart.value > 60
    ensures IdlePeriodsSound(log) ==> IdlePeriodsSound(ClosedIdle(log, now))
  {
    var r := ClosedIdle(log, now);
    assert r.idlePeriods[..|log.idlePeriods|] == log.idlePeriods;
  }

  class ActivityLogger {
    var todayLog: DayLog
    var store: Store

    /** Today's file holds the in-memory record. */
    predicate Persisted(today: string)
      reads this
    {
      LogFileName(today) in store && store[LogFileName(today)] == EncodeData(ToJson(todayLog))
    }

    /** What is persisted is what loading today gives back. */
    lemma PersistedReloads(today: string)
      requires Persisted(today)
      ensures LoadToday(store, today) == todayLog
    {
      assert store == Written(store, today, todayLog);
      LoadTodayWritten(store, today, todayLog);
    }

    constructor(files: Store, today: string)
      ensures todayLog == LoadToday(files, today) && store == files
    {
      todayLog := LoadToday(files, today);
      store := files;
    }

    /** `save`: the record is written under the file name of the current date. */
    method Save(today: string)
      modifies this
      ensures todayLog == old(todayLog)
      ensures store == Written(old(store), today, todayLog)
      ensures Persisted(today)
    {
      store := Written(store, today, todayLog);
    }

    method AddWorkTime(seconds: int, today: string)
      modifies this
      ensures todayLog == WithWork(old(todayLog), seconds)
      ensures store == Written(old(store), today, todayLog) && Persisted(today)
    {
      todayLog := todayLog.(workSeconds := todayLog.workSeconds + seconds);
      Save(today);
    }

    method AddIdleTime(seconds: int, today: string)
      modifies this
      ensures todayLog == WithIdle(old(todayLog), seconds)
      ensures store == Written(old(store), today, todayLog) && Persisted(today)
    {
      todayLog := todayLog.(idleSeconds := todayLog.idleSeconds + seconds);
      Save(today);
    }

    method AddScreenshot(path: string, suspicious: bool, now: int, today: string)
      modifies this
      ensures todayLog == WithScreenshot(old(todayLog), Screenshot(now, path, suspicious))
      ensures store == Written(old(store), today, todayLog) && Persisted(today)
    {
      todayLog := todayLog.(screenshots := todayLog.screenshots + [Screenshot(now, path, suspicious)]);
      Save(today);
    }

    /** The seconds always count; an event is recorded only with a reason. */
    method AddSuspiciousTime(seconds: int, reason: string, now: int, today: string)
      modifies this
      ensures todayLog == WithSuspicious(old(todayLog), seconds, reason, now)
      ensures store == Written(old(store), today, todayLog) && Persisted(today)
    {
      todayLog := todayLog.(suspiciousSeconds := todayLog.suspiciousSeconds + seconds);
      if reason != [] {
        todayLog := todayLog.(suspiciousEvents := todayLog.suspiciousEvents + [SuspiciousEvent(now, seconds, reason)]);
      }
      Save(today);
    }

    /** The counts are overwritten with the trackers' running totals. */
    method UpdateActivityCounts(keyboardCount: int, windowCount: int, today: string)
      modifies this
      ensures todayLog == WithCounts(old(todayLog), keyboardCount, windowCount)
      ensures store == Written(old(store), today, todayLog) && Persisted(today)
    {
      todayLog := todayLog.(keyboardActivityCount := keyboardCount, windowChangeCount := windowCount);
      Save(today);
    }

    /** An idle period that is already open keeps its start. */
    method StartIdlePeriod(now: int, today: string)
      modifies this
      ensures todayLog == OpenedIdle(old(todayLog), now)
      ensures store == Written(old(store), today, todayLog) && Persisted(today)
    {
      if todayLog.currentIdleStart.None? {
        todayLog := todayLog.(currentIdleStart := Some(now));
      }
      Save(today);
    }

    /** Closing an idle period: it is recorded only when it lasted more than a
        minute, and the open mark is cleared either way. */
    method EndIdlePeriod(now: int, today: string)
      modifies this
      ensures todayLog == ClosedIdle(old(todayLog), now)
      ensures store == Written(old(store), today, todayLog) && Persisted(today)
    {
      match todayLog.currentIdleStart {
        case Some(start) =>
          var duration := now - start;
          if duration > 60 {
            todayLog := todayLog.(idlePeriods := todayLog.idlePeriods + [IdlePeriod(start, now, duration)]);
          }
          todayLog := todayLog.(currentIdleStart := None);
        case None =>
      }
      Save(today);
    }
  }

  // ---------------------------------------------------------------- summary

  datatype DaySummary = DaySummary(
    date: string,
    workHours: real,
    idleHours: real,
    overtimeHours: real,
    suspiciousHours: real,
    totalHours: real,
    realWorkHours: real,
    screenshotCount: nat,
    suspiciousCount: nat,
    keyboardCount: int,
    windowChanges: int,
    idleMinutes: seq<int>)

  function Hours(seconds: int): real
  {
    seconds as real / 3600.0
  }

  function IdleMinutes(ps: seq<IdlePeriod>): (r: seq<int>)
    ensures |r| == |ps|
    ensures forall i :: 0 <= i < |ps| ==> r[i] == TruncDiv(ps[i].durationSeconds, 60)
    ensures forall i :: 0 <= i < |ps| && ps[i].durationSeconds >= 0 ==>
              r[i] * 60 <= ps[i].durationSeconds < (r[i] + 1) * 60
  {
    if ps == [] then [] else IdleMinutes(ps[..|ps| - 1]) + [TruncDiv(ps[|ps| - 1].durationSeconds, 60)]
  }

  /** `get_summary`: hours are seconds over 3600, the total adds overtime to
      work, and real work is work less the flagged time, never below zero. */
  function GetSummary(log: DayLog): (r: DaySummary)
    ensures r.date == log.date
    ensures r.workHours * 3600.0 == log.workSeconds as real
    ensures r.idleHours * 3600.0 == log.idleSeconds as real
    ensures r.overtimeHours * 3600.0 == log.overtimeSeconds as real
    ensures r.suspiciousHours * 3600.0 == log.suspiciousSeconds as real
    ensures r.totalHours == r.workHours + r.overtimeHours
    ensures r.realWorkHours >= 0.0 && r.realWorkHours >= r.workHours - r.suspiciousHours
    ensures r.realWorkHours == 0.0 || r.realWorkHours == r.workHours - r.suspiciousHours
    ensures r.screenshotCount == |log.screenshots| && r.suspiciousCount == |log.suspiciousEvents|
    ensures r.keyboardCount == log.keyboardActivityCount && r.windowChanges == log.windowChangeCount
    ensures |r.idleMinutes| == |log.idlePeriods|
    // Each period's whole minutes, truncated toward zero (`int(d / 60)`).
    ensures forall i :: 0 <= i < |log.idlePeriods| ==>
              r.idleMinutes[i] == TruncDiv(log.idlePeriods[i].durationSeconds, 60)
    ensures forall i :: 0 <= i < |log.idlePeriods| && log.idlePeriods[i].durationSeconds >= 0 ==>
              r.idleMinutes[i] * 60 <= log.idlePeriods[i].durationSeconds < (r.idleMinutes[i] + 1) * 60
  {
    var work := Hours(log.workSeconds);
    var suspicious := Hours(log.suspiciousSeconds);
    DaySummary(
      log.date, work, Hours(log.idleSeconds), Hours(log.overtimeSeconds), suspicious,
      Hours(log.workSeconds + log.overtimeSeconds),
      if work - suspicious > 0.0 then work - suspicious else 0.0,
      |log.screenshots|, |log.suspiciousEvents|,
      log.keyboardActivityCount, log.windowChangeCount,
      IdleMinutes(log.idlePeriods))
  }
}
