/** The desktop application's once-a-second monitoring step (`monitor_loop`)
    and the office-hours tests it relies on (`is_work_hours`, `is_overtime`).
    Each step reads the cursor, the keyboard and the foreground window, decides
    whether the person is working, opens or closes an idle period, asks the
    detector whether the activity is real, credits the elapsed time to exactly
    one of work, flagged (suspicious) or idle time when inside office hours,
    and takes a screenshot when one is due. */
module Monitor {
  import opened Common
  import opened AntiCheat
  import opened ActivityLog

  /** The settings the step reads through `config.get`. */
  datatype MonitorSettings = MonitorSettings(
    workStartHour: int,
    workStartMinute: int,
    workEndHour: int,
    workEndMinute: int,
    screenshotIntervalMinutes: int,
    idleStartSeconds: int,
    warningScreenSeconds: int)

  const DefaultMonitorSettings := MonitorSettings(9, 0, 17, 0, 3, 300, 360)

  /** `datetime.replace(hour=h, minute=m)` succeeds only for a real time of day. */
  predicate ValidHours(m: MonitorSettings)
  {
    0 <= m.workStartHour <= 23 && 0 <= m.workStartMinute <= 59
    && 0 <= m.workEndHour <= 23 && 0 <= m.workEndMinute <= 59
  }

  /** A time of day in whole seconds since midnight. */
  predicate ValidClock(clock: int)
  {
    0 <= clock < 86400
  }

  function WorkStart(m: MonitorSettings): int
  {
    m.workStartHour * 3600 + m.workStartMinute * 60
  }

  function WorkEnd(m: MonitorSettings): int
  {
    m.workEndHour * 3600 + m.workEndMinute * 60
  }

  /** `is_work_hours`: from the start minute to the end minute, both included. */
  predicate IsWorkHours(clock: int, m: MonitorSettings)
    requires ValidHours(m) && ValidClock(clock)
  {
    WorkStart(m) <= clock <= WorkEnd(m)
  }

  /** `is_overtime`: after the end minute. */
  predicate IsOvertime(clock: int, m: MonitorSettings)
    requires ValidHours(m) && ValidClock(clock)
  {
    clock > WorkEnd(m)
  }

  /** No moment is both office hours and overtime; from the start of the day's
      work onwards every moment is one or the other; and a start after the end
      leaves no office hours at all. */
  lemma HoursPartition(clock: int, m: MonitorSettings)
    requires ValidHours(m) && ValidClock(clock)
    ensures !(IsWorkHours(clock, m) && IsOvertime(clock, m))
    ensures WorkStart(m) <= WorkEnd(m) && clock >= WorkStart(m) ==> (IsWorkHours(clock, m) || IsOvertime(clock, m))
    ensures WorkStart(m) > WorkEnd(m) ==> !IsWorkHours(clock, m)
  {
  }

  /** With the default settings, office hours are 09:00:00 to 17:00:00. */
  lemma DefaultHours(clock: int)
    requires ValidClock(clock)
    ensures ValidHours(DefaultMonitorSettings)
    ensures IsWorkHours(clock, DefaultMonitorSettings) <==> 32400 <= clock <= 61200
    ensures IsOvertime(clock, DefaultMonitorSettings) <==> clock > 61200
  {
  }

  /** The three counters one step of elapsed time can go to. */
  datatype Bucket = Work | Flagged | Idle

  /** Where a step's elapsed time is credited: nowhere outside office hours;
      inside them to work when active and real, to flagged time when active but
      judged fake, to idle time otherwise. */
  function Credit(inHours: bool, working: bool, genuine: bool): (r: Option<Bucket>)
    ensures r.Some? <==> inHours
    ensures r == Some(Work) <==> inHours && working && genuine
    ensures r == Some(Flagged) <==> inHours && working && !genuine
    ensures r == Some(Idle) <==> inHours && !working
  {
    if !inHours then None
    else if working && genuine then Some(Work)
    else if working then Some(Flagged)
    else Some(Idle)
  }

  /** The idle edge on the record: a mark is opened when work stops and the
      open period is closed when work resumes. */
  function IdleEdge(log: DayLog, wasWorking: bool, working: bool, now: int): DayLog
  {
    if wasWorking && !working then OpenedIdle(log, now)
    else if !wasWorking && working then ClosedIdle(log, now)
    else log
  }

  /** The crediting half on the record: outside office hours nothing; inside
      them the elapsed time goes to its bucket (a flagged step with a reason
      also logs an event) and the trackers' counts are copied. */
  function CreditLog(log: DayLog, c: Option<Bucket>, elapsed: int, now: int, reason: string,
                     keyCount: int, windowCount: int): DayLog
  {
    match c
    case None => log
    case Some(b) =>
      var credited := match b
        case Work => WithWork(log, elapsed)
        case Flagged => WithSuspicious(log, elapsed, reason, now)
        case Idle => WithIdle(log, elapsed);
      WithCounts(credited, keyCount, windowCount)
  }

  lemma CreditLogSome(log: DayLog, credited: DayLog, b: Bucket, elapsed: int, now: int, reason: string,
                      keyCount: int, windowCount: int)
    requires credited == match b
      case Work => WithWork(log, elapsed)
      case Flagged => WithSuspicious(log, elapsed, reason, now)
      case Idle => WithIdle(log, elapsed)
    ensures WithCounts(credited, keyCount, windowCount)
            == CreditLog(log, Some(b), elapsed, now, reason, keyCount, windowCount)
  {
  }

  /** The screenshot a pass records, if any: one is due while working in
      office hours once the interval has passed since the last one, and is
      recorded only if the capture gave a file. */
  function ShotTaken(working: bool, inHours: bool, now: int, last: int, interval: int,
                     capture: Option<string>, suspicious: bool): Option<Screenshot>
  {
    if working && inHours && now - last >= interval && capture.Some?
    then Some(Screenshot(now, capture.value, suspicious)) else None
  }

  function ShotLog(log: DayLog, shot: Option<Screenshot>): DayLog
  {
    if shot.Some? then WithScreenshot(log, shot.value) else log
  }

  /** A whole pass on the record: the idle edge, the crediting, the screenshot. */
  function PassLog(log: DayLog, wasWorking: bool, working: bool, c: Option<Bucket>, elapsed: int, now: int,
                   reason: string, keyCount: int, windowCount: int, shot: Option<Screenshot>): DayLog
  {
    ShotLog(CreditLog(IdleEdge(log, wasWorking, working, now), c, elapsed, now, reason, keyCount, windowCount), shot)
  }

  /** A pass credits the elapsed time to exactly the bucket `Credit` names,
      logs a flagged event only for flagged time with a reason, and never
      touches overtime, the date or the sessions. */
  lemma PassCredits(log: DayLog, wasWorking: bool, working: bool, c: Option<Bucket>, elapsed: int, now: int,
                    reason: string, keyCount: int, windowCount: int, shot: Option<Screenshot>)
    ensures var r := PassLog(log, wasWorking, working, c, elapsed, now, reason, keyCount, windowCount, shot);
            && r.workSeconds == log.workSeconds + (if c == Some(Work) then elapsed else 0)
            && r.suspiciousSeconds == log.suspiciousSeconds + (if c == Some(Flagged) then elapsed else 0)
            && r.idleSeconds == log.idleSeconds + (if c == Some(Idle) then elapsed else 0)
            && r.suspiciousEvents == log.suspiciousEvents
                 + (if c == Some(Flagged) && reason != [] then [SuspiciousEvent(now, elapsed, reason)] else [])
            && r.overtimeSeconds == log.overtimeSeconds && r.date == log.date
            && r.sessions == log.sessions && r.currentSessionStart == log.currentSessionStart
  {
  }

  /** No second is counted twice or lost: inside office hours the three time
      counters together grow by exactly the elapsed time, outside them not
      at all. */
  lemma PassConserves(log: DayLog, wasWorking: bool, working: bool, inHours: bool, genuine: bool, elapsed: int,
                      now: int, reason: string, keyCount: int, windowCount: int, shot: Option<Screenshot>)
    ensures var r := PassLog(log, wasWorking, working, Credit(inHours, working, genuine), elapsed, now, reason,
                             keyCount, windowCount, shot);
            r.workSeconds + r.suspiciousSeconds + r.idleSeconds
            == log.workSeconds + log.suspiciousSeconds + log.idleSeconds + (if inHours then elapsed else 0)
  {
    PassCredits(log, wasWorking, working, Credit(inHours, working, genuine), elapsed, now, reason,
                keyCount, windowCount, shot);
  }

  /** The counts are the trackers' totals after a pass in office hours and
      untouched outside them. */
  lemma PassCounts(log: DayLog, wasWorking: bool, working: bool, c: Option<Bucket>, elapsed: int, now: int,
                   reason: string, keyCount: int, windowCount: int, shot: Option<Screenshot>)
    ensures var r := PassLog(log, wasWorking, working, c, elapsed, now, reason, keyCount, windowCount, shot);
            && (c.Some? ==> r.keyboardActivityCount == keyCount && r.windowChangeCount == windowCount)
            && (c.None? ==> r.keyboardActivityCount == log.keyboardActivityCount
                            && r.windowChangeCount == log.windowChangeCount)
  {
  }

  /** Going idle leaves a mark open, coming back clears it, and a pass
      without an edge leaves the idle record alone; the recorded periods stay
      sound throughout. */
  lemma PassIdle(log: DayLog, wasWorking: bool, working: bool, c: Option<Bucket>, elapsed: int, now: int,
                 reason: string, keyCount: int, windowCount: int, shot: Option<Screenshot>)
    ensures var r := PassLog(log, wasWorking, working, c, elapsed, now, reason, keyCount, windowCount, shot);
            && (wasWorking && !working ==> r.currentIdleStart.Some? && r.idlePeriods == log.idlePeriods)
            && (!wasWorking && working ==> r.currentIdleStart == None)
            && (wasWorking == working ==> r.currentIdleStart == log.currentIdleStart && r.idlePeriods == log.idlePeriods)
            && (IdlePeriodsSound(log) ==> IdlePeriodsSound(r))
  {
    OpenedIdleMarks(log, now);
    ClosedIdleSound(log, now);
  }

  /** A pass appends the screenshot it took, and only that. */
  lemma PassScreenshots(log: DayLog, wasWorking: bool, working: bool, c: Option<Bucket>, elapsed: int, now: int,
                        reason: string, keyCount: int, windowCount: int, shot: Option<Screenshot>)
    ensures var r := PassLog(log, wasWorking, working, c, elapsed, now, reason, keyCount, windowCount, shot);
            r.screenshots == log.screenshots + (if shot.Some? then [shot.value] else [])
  {
  }

  /** `current_time - last_check_time`: the seconds a pass accounts for. */
  function Elapsed(lastCheck: int, now: int): int
  {
    now - lastCheck
  }

  function Min(a: int, b: int): int
  {
    if a <= b then a else b
  }

  /** `sqrt` gives the square root of `x` when `x` is not negative. */
  ghost predicate RootAt(sqrt: real -> real, x: real)
  {
    x >= 0.0 ==> sqrt(x) >= 0.0 && sqrt(x) * sqrt(x) == x
  }

  /** The square root the program takes with `math.sqrt`. */
  ghost predicate IsSqrt(sqrt: real -> real)
  {
    forall x: real {:trigger RootAt(sqrt, x)} :: RootAt(sqrt, x)
  }

  /** The length of the cursor's step from `last` to `pos`, as `has_moved`
      takes it with `math.sqrt`. */
  function StepLength(sqrt: real -> real, last: (int, int), pos: (int, int)): (r: real)
    requires IsSqrt(sqrt)
    ensures r >= 0.0 && r * r == (Square(pos.0 - last.0) + Square(pos.1 - last.1)) as real
  {
    var squared := (Square(pos.0 - last.0) + Square(pos.1 - last.1)) as real;
    assert RootAt(sqrt, squared);
    sqrt(squared)
  }

  /** The standard deviation `analyze` takes of the intervals:
      `statistics.stdev` of the last ten once there are five of them (0,
      unused, before). */
  function IntervalStdev(sqrt: real -> real, intervals: seq<int>): (sd: real)
    requires IsSqrt(sqrt)
    ensures StdevOf(intervals, sd)
  {
    if |intervals| >= 5 then
      assert RootAt(sqrt, SampleVariance(Last(intervals, 10)));
      sqrt(SampleVariance(Last(intervals, 10)))
    else 0.0
  }

  class MonitorApp {
    const mouse: MouseTracker
    const keyboard: KeyboardTracker
    const logger: ActivityLogger
    var isWorking: bool
    var isSuspicious: bool
    var currentIdleSeconds: int
    var lastCheckTime: int
    var lastScreenshotTime: int
    var warningVisible: bool

    /** The keyboard tracker reports to the mouse tracker's detector. */
    predicate Linked()
      reads this
    {
      keyboard.anticheat == mouse.anticheat
    }

    constructor(m: MouseTracker, k: KeyboardTracker, l: ActivityLogger, now: int)
      requires k.anticheat == m.anticheat
      ensures mouse == m && keyboard == k && logger == l && Linked()
      ensures !isWorking && !isSuspicious && lastScreenshotTime == 0 && lastCheckTime == now
      ensures currentIdleSeconds == 0 && !warningVisible
    {
      mouse := m;
      keyboard := k;
      logger := l;
      isWorking := false;
      isSuspicious := false;
      currentIdleSeconds := 0;
      lastCheckTime := now;
      lastScreenshotTime := 0;
      warningVisible := false;
    }

    /** What the sensing half of a pass leaves behind: working exactly when
        the shorter of the cursor's and the keyboard's idle times is under
        the idle threshold, the idle time shown only while not working, the
        warning screen up exactly when idle reaches the warning threshold in
        office hours, and the step suspicious exactly when the detector (if
        enabled) scores it at 50 or more, the score being that of `analyze`'s
        three checks on the detector's histories and clocks. */
    predicate Sensed(now: int, clock: int, m: MonitorSettings, s: Settings, sqrt: real -> real)
      requires ValidHours(m) && ValidClock(clock) && IsSqrt(sqrt)
      reads this`isWorking, this`currentIdleSeconds, this`warningVisible, this`isSuspicious
      reads mouse, keyboard, mouse.anticheat
    {
      var idle := Min(mouse.IdleSeconds(now), keyboard.IdleSeconds(now));
      && isWorking == (idle < m.idleStartSeconds)
      && currentIdleSeconds == (if isWorking then 0 else idle)
      && warningVisible == (idle >= m.warningScreenSeconds && IsWorkHours(clock, m))
      && isSuspicious == !mouse.realActivity
      && Judged(now, s, sqrt)
    }

    /** The mouse tracker's verdict is the detector's, when enabled: real
        activity exactly below a score of 50, the score being that of
        `analyze`'s three checks on the detector's histories and clocks. */
    predicate Judged(now: int, s: Settings, sqrt: real -> real)
      requires IsSqrt(sqrt)
      reads mouse, mouse.anticheat
    {
      var d := mouse.anticheat;
      var sd := IntervalStdev(sqrt, d.intervalHistory);
      && (s.enabled ==> mouse.realActivity == (d.cheatScore < 50.0))
      && (s.enabled ==> d.cheatScore == Score(DetectJitter(d.movementHistory, d.intervalHistory, s, sd),
                                               DetectNoKeyboard(s, now, d.lastKeyboardTime).hit,
                                               DetectNoWindowChange(s, now, d.lastWindowChange).hit))
      && (!s.enabled ==> mouse.realActivity)
    }

    /** Opening an idle period when the person stops working, closing it when
        they come back. */
    method TrackIdleEdge(wasWorking: bool, now: int, today: string)
      modifies logger
      ensures logger.todayLog == IdleEdge(old(logger.todayLog), wasWorking, isWorking, now)
      ensures wasWorking == isWorking ==> logger.store == old(logger.store)
      ensures wasWorking != isWorking ==> logger.Persisted(today)
    {
      if !isWorking && wasWorking {
        logger.StartIdlePeriod(now, today);
      } else if isWorking && !wasWorking {
        logger.EndIdlePeriod(now, today);
      }
    }

    /** Crediting the elapsed time and copying the activity counts. */
    method AccountTime(inHours: bool, working: bool, genuine: bool, elapsed: int, reason: string,
                       keyCount: int, windowCount: int, now: int, today: string)
      modifies logger
      ensures logger.todayLog == CreditLog(old(logger.todayLog), Credit(inHours, working, genuine), elapsed, now,
                                           reason, keyCount, windowCount)
      ensures inHours ==> logger.Persisted(today)
      ensures !inHours ==> logger.store == old(logger.store)
    {
      if inHours {
        ghost var before := logger.todayLog;
        if working && genuine {
          logger.AddWorkTime(elapsed, today);
        } else if working && !genuine {
          logger.AddSuspiciousTime(elapsed, reason, now, today);
        } else {
          logger.AddIdleTime(elapsed, today);
        }
        ghost var credited := logger.todayLog;
        logger.UpdateActivityCounts(keyCount, windowCount, today);
        CreditLogSome(before, credited, Credit(inHours, working, genuine).value, elapsed, now, reason, keyCount,
                      windowCount);
      }
    }

    /** Taking the screenshot that is due, if the capture gave a file. */
    method MaybeScreenshot(inHours: bool, intervalSeconds: int, capture: Option<string>, now: int, today: string)
      modifies this`lastScreenshotTime, logger
      ensures var shot := ShotTaken(isWorking, inHours, now, old(lastScreenshotTime), intervalSeconds, capture,
                                    isSuspicious);
        && logger.todayLog == ShotLog(old(logger.todayLog), shot)
        && lastScreenshotTime == (if shot.Some? then now else old(lastScreenshotTime))
        && (shot.Some? ==> logger.Persisted(today))
        && (shot.None? ==> logger.store == old(logger.store))
    {
      if isWorking && inHours {
        if now - lastScreenshotTime >= intervalSeconds {
          if capture.Some? {
            logger.AddScreenshot(capture.value, isSuspicious, now, today);
            lastScreenshotTime := now;
          }
        }
      }
    }

    /** Reading the cursor and the keyboard: `has_moved` with the step length
        taken by `sqrt`, then `check_activity`; the result is the shorter of
        the two idle times. */
    method Sense(pos: (int, int), title: Option<string>, keyStates: seq<int>, now: int, sqrt: real -> real)
      returns (idle: int)
      requires Linked() && mouse.anticheat.Valid() && IsSqrt(sqrt)
      requires |keyStates| == PolledKeyCount
      modifies mouse, keyboard, mouse.anticheat
      ensures mouse.anticheat.Valid()
      ensures idle == Min(mouse.IdleSeconds(now), keyboard.IdleSeconds(now))
      // A move feeds the step to the detector's histories and checks the window.
      ensures old(mouse.lastPosition).Some? && pos != old(mouse.lastPosition).value ==>
        var step := StepLength(sqrt, old(mouse.lastPosition).value, pos);
        var d, moves := mouse.anticheat, old(mouse.anticheat.movementHistory);
        && d.movementHistory == Push(moves, Movement(now, pos.0, pos.1, step), MovementCap)
        && d.distanceHistory == Push(old(d.distanceHistory), step, DistanceCap)
        && d.intervalHistory == (if moves == [] then old(d.intervalHistory)
                                 else Push(old(d.intervalHistory), now - moves[|moves| - 1].time, IntervalCap))
        && d.lastWindowChange
           == if title.Some? && title.value != old(d.lastWindowTitle) then now else old(d.lastWindowChange)
      // Otherwise the cursor's histories and the window clock stay.
      ensures !(old(mouse.lastPosition).Some? && pos != old(mouse.lastPosition).value) ==>
        var d := mouse.anticheat;
        && d.movementHistory == old(d.movementHistory) && d.distanceHistory == old(d.distanceHistory)
        && d.intervalHistory == old(d.intervalHistory) && d.lastWindowChange == old(d.lastWindowChange)
      // A key press this pass restarts the detector's keyboard clock.
      ensures mouse.anticheat.lastKeyboardTime
              == if RisingEdges(KeysToCheck(), keyStates, old(keyboard.lastKeyState)) > 0 then now
                 else old(mouse.anticheat.lastKeyboardTime)
    {
      var distance := 0.0;
      if mouse.lastPosition.Some? {
        distance := StepLength(sqrt, mouse.lastPosition.value, pos);
      }
      var _ := mouse.HasMoved(pos, now, distance, title);
      var mouseIdle := mouse.IdleSeconds(now);
      var _ := keyboard.CheckActivity(keyStates, now);
      var keyboardIdle := keyboard.IdleSeconds(now);
      idle := Min(mouseIdle, keyboardIdle);
    }

    /** `is_real_activity`, with the standard deviation of the recent
        intervals taken by `sqrt` of their sample variance. */
    method Judge(s: Settings, now: int, sqrt: real -> real) returns (genuine: bool)
      requires mouse.anticheat.Valid() && IsSqrt(sqrt)
      modifies mouse`realActivity
      modifies mouse.anticheat`cheatScore, mouse.anticheat`isCheating, mouse.anticheat`cheatReason
      modifies mouse.anticheat`suspiciousEvents
      ensures mouse.anticheat.Valid()
      ensures genuine == mouse.realActivity
      ensures !s.enabled ==> genuine && unchanged(mouse.anticheat)
      ensures s.enabled ==> genuine == (mouse.anticheat.cheatScore < 50.0)
      ensures Judged(now, s, sqrt)
      ensures mouse.IdleSeconds(now) == old(mouse.IdleSeconds(now))
      ensures mouse.anticheat.windowChangeCount == old(mouse.anticheat.windowChangeCount)
      // `analyze`'s score, reasons and event log, from the histories it reads.
      ensures s.enabled ==>
        var d := mouse.anticheat;
        var jitter := DetectJitter(d.movementHistory, d.intervalHistory, s, IntervalStdev(sqrt, d.intervalHistory));
        var kb := DetectNoKeyboard(s, now, d.lastKeyboardTime);
        var win := DetectNoWindowChange(s, now, d.lastWindowChange);
        var issues := Issues(jitter, kb, win);
        && d.cheatScore == Score(jitter, kb.hit, win.hit)
        && d.cheatReason == JoinReasons(issues)
        && d.suspiciousEvents
           == if genuine then old(d.suspiciousEvents)
              else Push(old(d.suspiciousEvents), Event(now, d.cheatScore, issues), EventCap)
    {
      var sd := IntervalStdev(sqrt, mouse.anticheat.intervalHistory);
      genuine := mouse.IsRealActivity(s, now, sd);
    }

    /** The working decision and the idle edge it may cause. */
    method Decide(idle: int, m: MonitorSettings, now: int, today: string)
      modifies this`isWorking, this`currentIdleSeconds, logger
      ensures isWorking == (idle < m.idleStartSeconds)
      ensures currentIdleSeconds == (if isWorking then 0 else idle)
      ensures logger.todayLog == IdleEdge(old(logger.todayLog), old(isWorking), isWorking, now)
      ensures old(isWorking) == isWorking ==> logger.store == old(logger.store)
      ensures old(isWorking) != isWorking ==> logger.Persisted(today)
    {
      var wasWorking := isWorking;
      isWorking := idle < m.idleStartSeconds;
      currentIdleSeconds := if !isWorking then idle else 0;
      TrackIdleEdge(wasWorking, now, today);
    }

    /** The first half of a pass: sensing, the working decision, the idle
        edge, the detector's verdict and the warning screen. */
    method Observe(now: int, clock: int, today: string, m: MonitorSettings, s: Settings, sqrt: real -> real,
                   pos: (int, int), title: Option<string>, keyStates: seq<int>)
      returns (idle: int, genuine: bool)
      requires Linked() && mouse.anticheat.Valid()
      requires ValidHours(m) && ValidClock(clock) && IsSqrt(sqrt)
      requires |keyStates| == PolledKeyCount
      modifies this`isWorking, this`currentIdleSeconds, this`isSuspicious, this`warningVisible
      modifies mouse, keyboard, mouse.anticheat, logger
      ensures mouse.anticheat.Valid()
      ensures idle == Min(mouse.IdleSeconds(now), keyboard.IdleSeconds(now))
      ensures Sensed(now, clock, m, s, sqrt) && genuine == !isSuspicious
      ensures logger.todayLog == IdleEdge(old(logger.todayLog), old(isWorking), isWorking, now)
    {
      idle := Sense(pos, title, keyStates, now, sqrt);
      Decide(idle, m, now, today);
      ghost var log := logger.todayLog;
      genuine := Judge(s, now, sqrt);
      assert logger.todayLog == log;
      assert idle == Min(mouse.IdleSeconds(now), keyboard.IdleSeconds(now));
      isSuspicious := !genuine;
      warningVisible := idle >= m.warningScreenSeconds && IsWorkHours(clock, m);
    }

    /** The second half of a pass: crediting the elapsed time, copying the
        counts and taking a screenshot when due. */
    method Record(inHours: bool, elapsed: int, genuine: bool, m: MonitorSettings, capture: Option<string>,
                  now: int, today: string)
      requires isSuspicious == !genuine
      modifies this`lastScreenshotTime, logger
      ensures var shot := ShotTaken(isWorking, inHours, now, old(lastScreenshotTime),
                                    m.screenshotIntervalMinutes * 60, capture, isSuspicious);
        && logger.todayLog == ShotLog(CreditLog(old(logger.todayLog), Credit(inHours, isWorking, genuine), elapsed, now,
                                                mouse.anticheat.cheatReason, keyboard.keyCount,
                                                mouse.anticheat.windowChangeCount), shot)
        && lastScreenshotTime == (if shot.Some? then now else old(lastScreenshotTime))
    {
      var reason := mouse.anticheat.GetStatus(now).reason;
      AccountTime(inHours, isWorking, genuine, elapsed, reason, keyboard.keyCount, mouse.anticheat.windowChangeCount, now, today);
      MaybeScreenshot(inHours, m.screenshotIntervalMinutes * 60, capture, now, today);
    }

    /** One pass of `monitor_loop`. `now` is the clock in seconds, `clock` the
        same moment as a time of day, `today` its date text; `pos`, `title`,
        `keyStates` and `capture` are what the cursor, the foreground window,
        the key poll and the screen capture give this pass. The record after
        the pass is `PassLog` of the record before it, whose lemmas above
        state what a pass does to the day's figures. */
    method Tick(now: int, clock: int, today: string, m: MonitorSettings, s: Settings, sqrt: real -> real,
                pos: (int, int), title: Option<string>, keyStates: seq<int>, capture: Option<string>)
      requires Linked() && mouse.anticheat.Valid()
      requires ValidHours(m) && ValidClock(clock) && IsSqrt(sqrt)
      requires |keyStates| == PolledKeyCount
      modifies this, mouse, keyboard, mouse.anticheat, logger
      ensures Linked() && mouse.anticheat.Valid()
      ensures lastCheckTime == now
      ensures Sensed(now, clock, m, s, sqrt)
      ensures logger.todayLog == PassLog(old(logger.todayLog), old(isWorking), isWorking,
                                         Credit(IsWorkHours(clock, m), isWorking, !isSuspicious),
                                         Elapsed(old(lastCheckTime), now), now, mouse.anticheat.cheatReason,
                                         keyboard.keyCount, mouse.anticheat.windowChangeCount,
                                         ShotTaken(isWorking, IsWorkHours(clock, m), now, old(lastScreenshotTime),
                                                   m.screenshotIntervalMinutes * 60, capture, isSuspicious))
      ensures var shot := ShotTaken(isWorking, IsWorkHours(clock, m), now, old(lastScreenshotTime),
                                    m.screenshotIntervalMinutes * 60, capture, isSuspicious);
        lastScreenshotTime == (if shot.Some? then now else old(lastScreenshotTime))
    {
      var elapsed := Elapsed(lastCheckTime, now);
      lastCheckTime := now;
      var idle, genuine := Observe(now, clock, today, m, s, sqrt, pos, title, keyStates);
      Record(IsWorkHours(clock, m), elapsed, genuine, m, capture, now, today);
    }
  }
}
