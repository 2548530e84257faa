/** Detection of mouse jigglers and other fake activity, and the keyboard and
    mouse trackers that feed it (`AntiCheatDetector`, `KeyboardTracker`,
    `MouseTracker` in work_monitor.py). Clock readings, cursor positions,
    window titles and key states come from the operating system in the source;
    here they are parameters. Square roots (the length of a mouse step, the
    standard deviation of the step intervals) are parameters too, pinned down
    by a precondition that says what number they are. */
module AntiCheat {
  import opened Common

  /** The configuration values the detector reads. */
  datatype Settings = Settings(
    enabled: bool,                  // anticheat_enabled
    minMovementDistance: real,      // min_movement_distance
    maxJitterRegularity: real,      // max_jitter_regularity
    requireKeyboard: bool,          // require_keyboard_activity
    keyboardCheckInterval: int,     // keyboard_check_interval (seconds)
    requireWindowChanges: bool,     // require_window_changes
    windowChangeInterval: int)      // window_change_interval (seconds)

  const DefaultSettings := Settings(true, 50.0, 0.85, true, 300, true, 600)

  /** One recorded mouse step: when, where it ended, and how long it was. */
  datatype Movement = Movement(time: int, x: int, y: int, distance: real)

  /** One entry of the detector's own log of suspicious verdicts. */
  datatype Event = Event(time: int, score: real, reasons: seq<string>)

  /** What `get_status` reports. */
  datatype Status = Status(isCheating: bool, score: real, reason: string,
                           keyboardLast: int, windowLast: int, suspiciousCount: nat)

  /** One check's verdict: whether it fired, its score, its message. */
  datatype Check = Check(hit: bool, score: real, reason: string)

  const NoHit := Check(false, 0.0, "")

  const MovementCap := 100
  const IntervalCap := 50
  const DistanceCap := 50
  const EventCap := 50

  // ---------------------------------------------------------------- bounded history

  /** The last `n` elements of `s` (`list(d)[-n:]`). */
  function Last<T>(s: seq<T>, n: nat): (r: seq<T>)
    ensures |r| == (if |s| <= n then |s| else n)
    ensures forall i :: 0 <= i < |r| ==> r[i] == s[|s| - |r| + i]
  {
    if |s| <= n then s else s[|s| - n..]
  }

  /** `d.append(x)` on a `deque(maxlen=cap)` holding at most `cap` entries:
      the oldest entry falls out when it is full. */
  function Push<T>(s: seq<T>, x: T, cap: nat): (r: seq<T>)
    requires 0 < cap && |s| <= cap
    ensures |r| == (if |s| < cap then |s| + 1 else cap)
    ensures r[|r| - 1] == x
    ensures forall i :: 0 <= i < |r| - 1 ==> r[i] == s[|s| - (|r| - 1) + i]
  {
    if |s| < cap then s + [x] else s[1..] + [x]
  }

  // ---------------------------------------------------------------- statistics

  function SumReal(s: seq<real>): real
  {
    if s == [] then 0.0 else SumReal(s[..|s| - 1]) + s[|s| - 1]
  }

  function SumInt(s: seq<int>): int
  {
    if s == [] then 0 else SumInt(s[..|s| - 1]) + s[|s| - 1]
  }

  /** `statistics.mean` of the step lengths. */
  function MeanDistance(moves: seq<Movement>): real
    requires |moves| > 0
  {
    SumReal(Distances(moves)) / |moves| as real
  }

  function Distances(moves: seq<Movement>): (r: seq<real>)
    ensures |r| == |moves| && forall i :: 0 <= i < |moves| ==> r[i] == moves[i].distance
  {
    seq(|moves|, i requires 0 <= i < |moves| => moves[i].distance)
  }

  /** `statistics.mean` of the intervals. */
  function MeanInt(xs: seq<int>): real
    requires |xs| > 0
  {
    SumInt(xs) as real / |xs| as real
  }

  function SquaredDeviations(xs: seq<int>, m: real): (r: real)
    ensures r >= 0.0
  {
    if xs == [] then 0.0
    else SquaredDeviations(xs[..|xs| - 1], m) + (xs[|xs| - 1] as real - m) * (xs[|xs| - 1] as real - m)
  }

  /** `statistics.variance`: the sample variance (divided by n - 1). */
  function SampleVariance(xs: seq<int>): real
    requires |xs| >= 2
  {
    SquaredDeviations(xs, MeanInt(xs)) / (|xs| - 1) as real
  }

  /** The interval standard deviation the caller supplies is `statistics.stdev`
      of the last ten intervals whenever the detector will look at it. */
  predicate StdevOf(intervals: seq<int>, sd: real)
  {
    |intervals| >= 5 ==> sd >= 0.0 && sd * sd == SampleVariance(Last(intervals, 10))
  }

  /** What the checks need of that deviation: it is not negative. The checks
      and their lemmas hold for any such value; `StdevOf` says which one the
      detector is given. */
  predicate UsableStdev(intervals: seq<int>, sd: real)
  {
    |intervals| >= 5 ==> sd >= 0.0
  }

  // ---------------------------------------------------------------- message text

  /** `f"{x:.1%}"`: x as a percentage with one decimal, a tie rounded to
      the even tenth. */
  function Percent1(x: real): string
    requires x >= 0.0
  {
    var t := RoundHalfEven(x * 1000.0);
    NatToString(t / 10) + "." + [DigitChar(t % 10)] + "%"
  }

  /** The integer nearest `q`, the even one of the two when `q` lies halfway. */
  function RoundHalfEven(q: real): (r: int)
    ensures (r as real - q) * 2.0 <= 1.0 && (q - r as real) * 2.0 <= 1.0
    ensures (r as real - q) * 2.0 == 1.0 || (q - r as real) * 2.0 == 1.0 ==> r % 2 == 0
  {
    var t := q.Floor;
    var f := q - t as real;
    if f > 0.5 || (f == 0.5 && t % 2 == 1) then t + 1 else t
  }

  /** A share exactly halfway between two tenths of a percent goes to the
      even one: 81.25% shows as "81.2%". */
  lemma Percent1Tie()
    ensures Percent1(0.8125) == "81.2%"
  {
    assert RoundHalfEven(0.8125 * 1000.0) == 812 by {
      assert 0.8125 * 1000.0 == 812.5;
      assert (812.5).Floor == 812;
    }
    assert NatToString(8) == "8";
    assert NatToString(81) == "81";
    assert DigitChar(2) == '2';
  }

  /** `"; ".join(issues) if issues else "None"`. */
  function JoinReasons(issues: seq<string>): (r: string)
    ensures issues == [] ==> r == "None"
    ensures |issues| == 1 ==> r == issues[0]
  {
    if issues == [] then "None" else Join(issues)
  }

  function Join(issues: seq<string>): (r: string)
    requires issues != []
    ensures |issues| == 1 ==> r == issues[0]
  {
    if |issues| == 1 then issues[0]
    else Join(issues[..|issues| - 1]) + "; " + issues[|issues| - 1]
  }

  // ---------------------------------------------------------------- the checks

  /** Direction changes along one axis: consecutive steps of opposite sign. */
  function Reversals(changes: seq<int>): (r: nat)
    ensures |changes| >= 1 ==> r <= |changes| - 1
  {
    if |changes| < 2 then 0
    else (if changes[0] * changes[1] < 0 then 1 else 0) + Reversals(changes[1..])
  }

  function XChanges(moves: seq<Movement>): (r: seq<int>)
    requires |moves| >= 1
    ensures |r| == |moves| - 1
  {
    seq(|moves| - 1, i requires 0 <= i < |moves| - 1 => moves[i + 1].x - moves[i].x)
  }

  function YChanges(moves: seq<Movement>): (r: seq<int>)
    requires |moves| >= 1
    ensures |r| == |moves| - 1
  {
    seq(|moves| - 1, i requires 0 <= i < |moves| - 1 => moves[i + 1].y - moves[i].y)
  }

  /** The share of possible direction changes that happened (both axes). */
  function ReversalRate(recent: seq<Movement>): (r: real)
    requires |recent| >= 3
    ensures 0.0 <= r <= 1.0
  {
    var total := Reversals(XChanges(recent)) + Reversals(YChanges(recent));
    var most := (|recent| - 2) + (|recent| - 2);
    RatioBounds(total, most);
    total as real / most as real
  }

  lemma RatioBounds(a: nat, b: nat)
    requires 0 < b && a <= b
    ensures 0.0 <= a as real / b as real <= 1.0
  {
    var q := a as real / b as real;
    assert q * b as real == a as real;
  }

  lemma RatioOne(n: nat)
    requires 0 < n
    ensures n as real / n as real == 1.0
  {
    assert 1.0 * n as real == n as real;
  }

  lemma RatioHalf(n: nat)
    requires 0 < n
    ensures n as real / (n + n) as real == 0.5
  {
    assert 0.5 * (n + n) as real == n as real;
  }

  /** How regular the intervals are: 1 - min(stdev / mean, 1); None when the
      mean is not positive. */
  function Regularity(intervals: seq<int>, sd: real): (r: Option<real>)
    requires |intervals| > 0 && sd >= 0.0
    ensures r.Some? ==> 0.0 <= r.value <= 1.0
  {
    var m := MeanInt(intervals);
    if m > 0.0 then
      var cv := sd / m;
      Some(1.0 - (if cv < 1.0 then cv else 1.0))
    else None
  }

  /** `detect_jitter_pattern`: at least ten steps, small on average over the
      last twenty, and either very regular in time or oscillating. */
  function DetectJitter(moves: seq<Movement>, intervals: seq<int>, s: Settings, sd: real): (r: Check)
    requires UsableStdev(intervals, sd)
    ensures r.hit ==> |moves| >= 10 && MeanDistance(Last(moves, 20)) < s.minMovementDistance
    ensures !r.hit ==> r == NoHit
    ensures 0.0 <= r.score <= 100.0
  {
    if |moves| < 10 then NoHit
    else
      var recent := Last(moves, 20);
      if MeanDistance(recent) < s.minMovementDistance then
        var regular :=
          if |intervals| >= 5 then Regularity(Last(intervals, 10), sd) else None;
        if regular.Some? && regular.value > s.maxJitterRegularity then
          Check(true, regular.value * 100.0,
                "Regular micro-movements detected (regularity: " + Percent1(regular.value) + ")")
        else if |recent| >= 6 && ReversalRate(recent) > 0.7 then
          var rate := ReversalRate(recent);
          Check(true, rate * 100.0, "Oscillating mouse pattern detected (reversal rate: " + Percent1(rate) + ")")
        else NoHit
      else NoHit
  }

  /** Every step reverses the direction of the one before it. */
  predicate Alternating(changes: seq<int>)
  {
    forall i :: 0 <= i < |changes| - 1 ==> changes[i] * changes[i + 1] < 0
  }

  lemma {:induction false} AlternatingReversals(changes: seq<int>)
    requires |changes| >= 1 && Alternating(changes)
    ensures Reversals(changes) == |changes| - 1
  {
    if |changes| >= 2 {
      assert Alternating(changes[1..]) by {
        forall i | 0 <= i < |changes[1..]| - 1 ensures changes[1..][i] * changes[1..][i + 1] < 0 {
          assert changes[1..][i] == changes[i + 1] && changes[1..][i + 1] == changes[i + 2];
        }
      }
      AlternatingReversals(changes[1..]);
    }
  }

  lemma {:induction false} StillReversals(changes: seq<int>)
    requires forall i :: 0 <= i < |changes| ==> changes[i] == 0
    ensures Reversals(changes) == 0
  {
    if |changes| >= 2 {
      StillReversals(changes[1..]);
    }
  }

  /** When the jitter check fires: enough steps, small on average, and
      either too regular in time or oscillating too often. */
  lemma JitterHitWhen(moves: seq<Movement>, intervals: seq<int>, s: Settings, sd: real)
    requires UsableStdev(intervals, sd)
    ensures var recent := Last(moves, 20);
            var regular := if |intervals| >= 5 then Regularity(Last(intervals, 10), sd) else None;
            DetectJitter(moves, intervals, s, sd).hit
            <==> |moves| >= 10 && MeanDistance(recent) < s.minMovementDistance &&
                 ((regular.Some? && regular.value > s.maxJitterRegularity) ||
                  (|recent| >= 6 && ReversalRate(recent) > 0.7))
  {
  }

  /** Alternating steps on both axes reverse at every occasion. */
  lemma AlternatingRate(recent: seq<Movement>)
    requires |recent| >= 3
    requires Alternating(XChanges(recent)) && Alternating(YChanges(recent))
    ensures ReversalRate(recent) == 1.0
  {
    AlternatingReversals(XChanges(recent));
    AlternatingReversals(YChanges(recent));
    var n := |recent| - 2;
    assert Reversals(XChanges(recent)) + Reversals(YChanges(recent)) == n + n;
    RatioOne(n + n);
  }

  /** Alternating steps on one axis and none on the other reverse at half of
      the occasions. */
  lemma OneAxisRate(recent: seq<Movement>, y: int)
    requires |recent| >= 3
    requires Alternating(XChanges(recent))
    requires forall i :: 0 <= i < |recent| ==> recent[i].y == y
    ensures ReversalRate(recent) == 0.5
  {
    AlternatingReversals(XChanges(recent));
    var ys := YChanges(recent);
    forall i | 0 <= i < |ys| ensures ys[i] == 0 {
      assert recent[i + 1].y == y && recent[i].y == y;
    }
    StillReversals(ys);
    var n := |recent| - 2;
    RatioHalf(n);
    assert ReversalRate(recent) == n as real / (n + n) as real;
  }

  /** A jiggler that keeps moving back and forth on both axes with small
      steps is flagged once ten steps are recorded, however irregular its timing. */
  lemma BackAndForthFlagged(moves: seq<Movement>, intervals: seq<int>, s: Settings, sd: real)
    requires UsableStdev(intervals, sd) && |moves| >= 10
    requires MeanDistance(Last(moves, 20)) < s.minMovementDistance
    requires Alternating(XChanges(Last(moves, 20))) && Alternating(YChanges(Last(moves, 20)))
    ensures DetectJitter(moves, intervals, s, sd).hit
  {
    AlternatingRate(Last(moves, 20));
    JitterHitWhen(moves, intervals, s, sd);
  }

  /** A jiggler that moves back and forth along one axis only reverses on half
      of the possible occasions, never above the 0.7 bar, so the oscillation
      test misses it; only the timing test can catch it. */
  lemma OneAxisJiggleMissed(moves: seq<Movement>, intervals: seq<int>, s: Settings, sd: real)
    requires UsableStdev(intervals, sd) && |moves| >= 10
    requires Alternating(XChanges(Last(moves, 20)))
    requires forall i :: 0 <= i < |moves| ==> moves[i].y == moves[0].y
    requires |intervals| >= 5 ==>
      var reg := Regularity(Last(intervals, 10), sd); reg.None? || reg.value <= s.maxJitterRegularity
    ensures ReversalRate(Last(moves, 20)) == 0.5
    ensures !DetectJitter(moves, intervals, s, sd).hit
  {
    var recent := Last(moves, 20);
    forall i | 0 <= i < |recent| ensures recent[i].y == moves[0].y {
      assert recent[i] == moves[|moves| - |recent| + i];
    }
    OneAxisRate(recent, moves[0].y);
    var regular := if |intervals| >= 5 then Regularity(Last(intervals, 10), sd) else None;
    assert !(regular.Some? && regular.value > s.maxJitterRegularity);
    assert !(ReversalRate(recent) > 0.7);
    JitterHitWhen(moves, intervals, s, sd);
  }

  /** `detect_no_keyboard`. */
  function DetectNoKeyboard(s: Settings, now: int, lastKeyboard: int): (r: Check)
    ensures r.hit <==> s.requireKeyboard && now - lastKeyboard > s.keyboardCheckInterval
    ensures r.score == 0.0
  {
    if !s.requireKeyboard then NoHit
    else if now - lastKeyboard > s.keyboardCheckInterval then
      Check(true, 0.0, "No keyboard activity for " + IntToString(now - lastKeyboard)
                       + "s (threshold: " + IntToString(s.keyboardCheckInterval) + "s)")
    else NoHit
  }

  /** `detect_no_window_change`. */
  function DetectNoWindowChange(s: Settings, now: int, lastChange: int): (r: Check)
    ensures r.hit <==> s.requireWindowChanges && now - lastChange > s.windowChangeInterval
    ensures r.score == 0.0
  {
    if !s.requireWindowChanges then NoHit
    else if now - lastChange > s.windowChangeInterval then
      Check(true, 0.0, "Same window for " + IntToString(now - lastChange)
                       + "s (threshold: " + IntToString(s.windowChangeInterval) + "s)")
    else NoHit
  }

  /** The weighted score of `analyze`: half the jitter score, 30 for a silent
      keyboard, 20 for an unchanged window, capped at 100. */
  function Score(jitter: Check, noKeyboard: bool, noWindow: bool): (r: real)
    requires 0.0 <= jitter.score <= 100.0
    ensures 0.0 <= r <= 100.0
    // A silent keyboard together with an unchanged window is always cheating.
    ensures noKeyboard && noWindow ==> r >= 50.0
    // Neither timeout alone is enough without a jitter finding.
    ensures !jitter.hit && !(noKeyboard && noWindow) ==> r < 50.0
    // Jitter alone is enough only at a perfect score.
    ensures jitter.hit && !noKeyboard && !noWindow ==> (r >= 50.0 <==> jitter.score == 100.0)
  {
    var total := (if jitter.hit then jitter.score * 0.5 else 0.0)
                 + (if noKeyboard then 30.0 else 0.0)
                 + (if noWindow then 20.0 else 0.0);
    if total < 100.0 then total else 100.0
  }

  /** The messages of the checks that fired, in the order `analyze` runs them. */
  function Issues(jitter: Check, kb: Check, win: Check): (r: seq<string>)
    ensures |r| == (if jitter.hit then 1 else 0) + (if kb.hit then 1 else 0) + (if win.hit then 1 else 0)
  {
    (if jitter.hit then [jitter.reason] else [])
    + (if kb.hit then [kb.reason] else [])
    + (if win.hit then [win.reason] else [])
  }

  // ---------------------------------------------------------------- the detector

  class AntiCheatDetector {
    var movementHistory: seq<Movement>
    var intervalHistory: seq<int>
    var distanceHistory: seq<real>
    var lastKeyboardTime: int
    var keyboardCount: int
    var lastWindowChange: int
    var lastWindowTitle: string
    var windowChangeCount: int
    var isCheating: bool
    var cheatReason: string
    var cheatScore: real
    var suspiciousEvents: seq<Event>

    /** The bounded histories stay within their `maxlen`, the score within
        0..100, and the verdict is the score's threshold. */
    predicate Valid()
      reads this`movementHistory, this`intervalHistory, this`distanceHistory, this`suspiciousEvents
      reads this`cheatScore, this`isCheating
    {
      |movementHistory| <= MovementCap && |intervalHistory| <= IntervalCap
      && |distanceHistory| <= DistanceCap && |suspiciousEvents| <= EventCap
      && 0.0 <= cheatScore <= 100.0 && isCheating == (cheatScore >= 50.0)
    }

    constructor(now: int)
      ensures Valid()
      ensures movementHistory == [] && intervalHistory == [] && distanceHistory == []
      ensures lastKeyboardTime == now && keyboardCount == 0
      ensures lastWindowChange == now && lastWindowTitle == "" && windowChangeCount == 0
      ensures !isCheating && cheatReason == "" && cheatScore == 0.0 && suspiciousEvents == []
    {
      movementHistory := [];
      intervalHistory := [];
      distanceHistory := [];
      lastKeyboardTime := now;
      keyboardCount := 0;
      lastWindowChange := now;
      lastWindowTitle := "";
      windowChangeCount := 0;
      isCheating := false;
      cheatReason := "";
      cheatScore := 0.0;
      suspiciousEvents := [];
    }

    /** `add_movement`: nothing without a previous position; otherwise the step
        goes into the movement and distance histories and, from the second
        step on, its interval after the previous step into the interval history. */
    method AddMovement(oldPos: Option<(int, int)>, newPos: (int, int), timestamp: int, distance: real)
      requires Valid()
      modifies this
      ensures Valid()
      ensures oldPos.None? ==> unchanged(this)
      ensures oldPos.Some? ==>
        && movementHistory == Push(old(movementHistory), Movement(timestamp, newPos.0, newPos.1, distance), MovementCap)
        && distanceHistory == Push(old(distanceHistory), distance, DistanceCap)
        && intervalHistory == (if old(movementHistory) != []
                               then Push(old(intervalHistory), timestamp - old(movementHistory)[|old(movementHistory)| - 1].time, IntervalCap)
                               else old(intervalHistory))
      ensures lastKeyboardTime == old(lastKeyboardTime) && keyboardCount == old(keyboardCount)
      ensures lastWindowChange == old(lastWindowChange) && lastWindowTitle == old(lastWindowTitle)
      ensures windowChangeCount == old(windowChangeCount)
      ensures isCheating == old(isCheating) && cheatScore == old(cheatScore)
      ensures cheatReason == old(cheatReason) && suspiciousEvents == old(suspiciousEvents)
    {
      if oldPos.None? {
        return;
      }
      var before := movementHistory;
      movementHistory := Push(movementHistory, Movement(timestamp, newPos.0, newPos.1, distance), MovementCap);
      distanceHistory := Push(distanceHistory, distance, DistanceCap);
      if |movementHistory| >= 2 {
        // The entry before the new one is the last one recorded before this call.
        assert movementHistory[|movementHistory| - 2] == before[|before| - 1];
        var prevTime := movementHistory[|movementHistory| - 2].time;
        intervalHistory := Push(intervalHistory, timestamp - prevTime, IntervalCap);
      }
    }

    /** `record_keyboard_activity`. */
    method RecordKeyboardActivity(now: int)
      modifies this`lastKeyboardTime, this`keyboardCount
      ensures lastKeyboardTime == now && keyboardCount == old(keyboardCount) + 1
    {
      lastKeyboardTime := now;
      keyboardCount := keyboardCount + 1;
    }

    /** `check_active_window`: `title` is the foreground window's title, None
        when the system call fails. A title different from the last one counts
        as a window change. */
    method CheckActiveWindow(title: Option<string>, now: int) returns (changed: bool)
      requires Valid()
      modifies this
      ensures Valid()
      ensures changed <==> title.Some? && title.value != old(lastWindowTitle)
      ensures changed ==> lastWindowTitle == title.value && lastWindowChange == now
                          && windowChangeCount == old(windowChangeCount) + 1
      ensures !changed ==> lastWindowTitle == old(lastWindowTitle) && lastWindowChange == old(lastWindowChange)
                           && windowChangeCount == old(windowChangeCount)
      ensures movementHistory == old(movementHistory) && intervalHistory == old(intervalHistory)
      ensures distanceHistory == old(distanceHistory)
      ensures lastKeyboardTime == old(lastKeyboardTime) && keyboardCount == old(keyboardCount)
      ensures isCheating == old(isCheating) && cheatScore == old(cheatScore)
      ensures cheatReason == old(cheatReason) && suspiciousEvents == old(suspiciousEvents)
    {
      changed := false;
      if title.Some? && title.value != lastWindowTitle {
        lastWindowTitle := title.value;
        lastWindowChange := now;
        windowChangeCount := windowChangeCount + 1;
        changed := true;
      }
    }

    /** `analyze`: with detection off, a fixed answer and no change; otherwise
        the three checks, the weighted score, the verdict (score >= 50), the
        joined reasons, and an event logged for a cheating verdict. */
    method Analyze(s: Settings, now: int, sd: real) returns (cheating: bool, score: real, reason: string)
      requires Valid() && UsableStdev(intervalHistory, sd)
      modifies this`cheatScore, this`isCheating, this`cheatReason, this`suspiciousEvents
      ensures Valid()
      ensures !s.enabled ==> cheating == false && score == 0.0 && reason == "Anti-cheat disabled"
                             && unchanged(this)
      ensures s.enabled ==>
        var jitter := DetectJitter(old(movementHistory), old(intervalHistory), s, sd);
        var kb := DetectNoKeyboard(s, now, old(lastKeyboardTime));
        var win := DetectNoWindowChange(s, now, old(lastWindowChange));
        var issues := Issues(jitter, kb, win);
        && score == Score(jitter, kb.hit, win.hit) && cheating == (score >= 50.0)
        && reason == JoinReasons(issues)
        && cheatScore == score && isCheating == cheating && cheatReason == reason
        && suspiciousEvents == (if cheating then Push(old(suspiciousEvents), Event(now, score, issues), EventCap)
                                else old(suspiciousEvents))
    {
      if !s.enabled {
        return false, 0.0, "Anti-cheat disabled";
      }
      var jitter := DetectJitter(movementHistory, intervalHistory, s, sd);
      var kb := DetectNoKeyboard(s, now, lastKeyboardTime);
      var win := DetectNoWindowChange(s, now, lastWindowChange);
      var issues := Issues(jitter, kb, win);
      score := Score(jitter, kb.hit, win.hit);
      cheating, reason := Conclude(score, issues, now);
    }

    /** The verdict of `analyze` kept on the detector: cheating from a score
        of 50, the reasons joined, and an event logged for a cheating verdict. */
    method Conclude(score: real, issues: seq<string>, now: int) returns (cheating: bool, reason: string)
      requires Valid() && 0.0 <= score <= 100.0
      modifies this`cheatScore, this`isCheating, this`cheatReason, this`suspiciousEvents
      ensures Valid()
      ensures cheating == (score >= 50.0) && reason == JoinReasons(issues)
      ensures cheatScore == score && isCheating == cheating && cheatReason == reason
      ensures suspiciousEvents == (if cheating then Push(old(suspiciousEvents), Event(now, score, issues), EventCap)
                                   else old(suspiciousEvents))
    {
      cheating := score >= 50.0;
      reason := JoinReasons(issues);
      var events := suspiciousEvents;
      if cheating {
        events := Push(events, Event(now, score, issues), EventCap);
      }
      cheatScore, isCheating, cheatReason, suspiciousEvents := score, cheating, reason, events;
    }

    /** `get_status`. */
    function GetStatus(now: int): (r: Status)
      reads this
      ensures r.isCheating == isCheating && r.score == cheatScore && r.reason == cheatReason
      ensures r.keyboardLast == now - lastKeyboardTime && r.windowLast == now - lastWindowChange
      ensures r.suspiciousCount == |suspiciousEvents|
    {
      Status(isCheating, cheatScore, cheatReason, now - lastKeyboardTime, now - lastWindowChange,
             |suspiciousEvents|)
    }
  }

  // ---------------------------------------------------------------- keyboard

  /** How many keys each poll reads: the virtual-key codes 0x08..0x5A and
      0x60..0x87. */
  const PolledKeyCount := (0x5B - 0x08) + (0x88 - 0x60)

  function KeysToCheck(): (r: seq<int>)
    ensures |r| == PolledKeyCount
    ensures forall i, j :: 0 <= i < j < |r| ==> r[i] < r[j]
  {
    seq(0x5B - 0x08, i => 0x08 + i) + seq(0x88 - 0x60, i => 0x60 + i)
  }

  /** Bit 0 of a key state: pressed since the previous poll (`state & 1`,
      which Python evaluates on the two's complement value). */
  predicate Pressed(state: int) { state % 2 == 1 }

  function StateOf(m: map<int, int>, vk: int): int
  {
    if vk in m then m[vk] else 0
  }

  /** How many of the polled keys show a fresh press this time and did not
      at the previous poll. */
  function RisingEdges(keys: seq<int>, states: seq<int>, prev: map<int, int>): (r: nat)
    requires |keys| == |states|
    ensures r <= |keys|
  {
    if keys == [] then 0
    else RisingEdges(keys[..|keys| - 1], states[..|states| - 1], prev)
         + (if Pressed(states[|states| - 1]) && !Pressed(StateOf(prev, keys[|keys| - 1])) then 1 else 0)
  }

  /** The key-state table after recording every polled state. */
  function Recorded(keys: seq<int>, states: seq<int>, prev: map<int, int>): (r: map<int, int>)
    requires |keys| == |states|
    ensures forall i :: 0 <= i < |keys| ==> keys[i] in r
    ensures forall vk :: vk !in keys ==> StateOf(r, vk) == StateOf(prev, vk)
  {
    if keys == [] then prev
    else Recorded(keys[..|keys| - 1], states[..|states| - 1], prev)[keys[|keys| - 1] := states[|states| - 1]]
  }

  class KeyboardTracker {
    const anticheat: AntiCheatDetector
    var lastKeyState: map<int, int>
    var keyCount: int
    var lastActivity: int

    constructor(detector: AntiCheatDetector, now: int)
      ensures anticheat == detector && lastKeyState == map[] && keyCount == 0 && lastActivity == now
    {
      anticheat := detector;
      lastKeyState := map[];
      keyCount := 0;
      lastActivity := now;
    }

    /** `check_activity`: `states[i]` is `GetAsyncKeyState` of the i-th polled
        key. Every key whose press bit rises since the previous poll counts one
        key press, marks the tracker active and is reported to the detector;
        every state is remembered for the next poll. */
    method CheckActivity(states: seq<int>, now: int) returns (count: int)
      requires |states| == PolledKeyCount
      modifies this`lastKeyState, this`keyCount, this`lastActivity
      modifies anticheat`lastKeyboardTime, anticheat`keyboardCount
      ensures var edges := RisingEdges(KeysToCheck(), states, old(lastKeyState));
        && keyCount == old(keyCount) + edges
        && lastActivity == (if edges > 0 then now else old(lastActivity))
        && anticheat.keyboardCount == old(anticheat.keyboardCount) + edges
        && anticheat.lastKeyboardTime == (if edges > 0 then now else old(anticheat.lastKeyboardTime))
      ensures lastKeyState == Recorded(KeysToCheck(), states, old(lastKeyState))
      ensures count == keyCount
    {
      PollKeys(KeysToCheck(), states, now);
      count := keyCount;
    }

    /** The polling loop over distinct keys and their states. */
    method PollKeys(keys: seq<int>, states: seq<int>, now: int)
      requires |keys| == |states|
      requires forall a, b :: 0 <= a < b < |keys| ==> keys[a] < keys[b]
      modifies this`lastKeyState, this`keyCount, this`lastActivity
      modifies anticheat`lastKeyboardTime, anticheat`keyboardCount
      ensures var edges := RisingEdges(keys, states, old(lastKeyState));
        && keyCount == old(keyCount) + edges
        && lastActivity == (if edges > 0 then now else old(lastActivity))
        && anticheat.keyboardCount == old(anticheat.keyboardCount) + edges
        && anticheat.lastKeyboardTime == (if edges > 0 then now else old(anticheat.lastKeyboardTime))
      ensures lastKeyState == Recorded(keys, states, old(lastKeyState))
    {
      var i := 0;
      ghost var edges := 0;
      while i < |keys|
        invariant 0 <= i <= |keys|
        invariant lastKeyState == Recorded(keys[..i], states[..i], old(lastKeyState))
        invariant edges == RisingEdges(keys[..i], states[..i], old(lastKeyState))
        invariant keyCount == old(keyCount) + edges
        invariant anticheat.keyboardCount == old(anticheat.keyboardCount) + edges
        invariant lastActivity == (if edges > 0 then now else old(lastActivity))
        invariant anticheat.lastKeyboardTime == (if edges > 0 then now else old(anticheat.lastKeyboardTime))
      {
        // Keys are distinct, so this key still has its state from the previous poll.
        PollStep(keys, states, old(lastKeyState), i);
        var rising := PollKey(keys[i], states[i], now);
        if rising {
          edges := edges + 1;
        }
        i := i + 1;
      }
      assert keys[..i] == keys && states[..i] == states;
    }

    /** One polled key: a press bit that was not set at the previous poll
        counts a key press, marks the tracker active and is reported to the
        detector; the key's state is remembered either way. */
    method PollKey(vk: int, state: int, now: int) returns (rising: bool)
      modifies this`lastKeyState, this`keyCount, this`lastActivity
      modifies anticheat`lastKeyboardTime, anticheat`keyboardCount
      ensures rising == (Pressed(state) && !Pressed(StateOf(old(lastKeyState), vk)))
      ensures lastKeyState == old(lastKeyState)[vk := state]
      ensures keyCount == old(keyCount) + (if rising then 1 else 0)
      ensures lastActivity == (if rising then now else old(lastActivity))
      ensures anticheat.keyboardCount == old(anticheat.keyboardCount) + (if rising then 1 else 0)
      ensures anticheat.lastKeyboardTime == (if rising then now else old(anticheat.lastKeyboardTime))
    {
      rising := Pressed(state) && !Pressed(StateOf(lastKeyState, vk));
      if rising {
        keyCount := keyCount + 1;
        lastActivity := now;
        anticheat.RecordKeyboardActivity(now);
      }
      lastKeyState := lastKeyState[vk := state];
    }

    /** `get_idle_seconds`. */
    function IdleSeconds(now: int): (r: int)
      reads this`lastActivity
      ensures r == now - lastActivity
    {
      now - lastActivity
    }
  }

  /** What one more polled key adds to the count and to the table; the key
      has not been seen earlier in the same poll. */
  lemma PollStep(keys: seq<int>, states: seq<int>, prev: map<int, int>, i: int)
    requires |keys| == |states| && 0 <= i < |keys|
    requires forall a, b :: 0 <= a < b < |keys| ==> keys[a] < keys[b]
    ensures StateOf(Recorded(keys[..i], states[..i], prev), keys[i]) == StateOf(prev, keys[i])
    ensures RisingEdges(keys[..i + 1], states[..i + 1], prev)
            == RisingEdges(keys[..i], states[..i], prev)
               + (if Pressed(states[i]) && !Pressed(StateOf(prev, keys[i])) then 1 else 0)
    ensures Recorded(keys[..i + 1], states[..i + 1], prev)
            == Recorded(keys[..i], states[..i], prev)[keys[i] := states[i]]
  {
    assert keys[..i + 1][..i] == keys[..i] && states[..i + 1][..i] == states[..i];
    assert keys[i] !in keys[..i] by {
      forall a | 0 <= a < i ensures keys[..i][a] != keys[i] {
        assert keys[..i][a] == keys[a];
      }
    }
  }

  /** The two polls that follow each other without a key change count nothing:
      a key held down is counted once, on the poll that first sees its press bit. */
  lemma {:induction false} NoRepeatCount(keys: seq<int>, states: seq<int>, prev: map<int, int>)
    requires |keys| == |states|
    requires forall i, j :: 0 <= i < j < |keys| ==> keys[i] != keys[j]
    ensures RisingEdges(keys, states, Recorded(keys, states, prev)) == 0
  {
    if keys != [] {
      var n := |keys| - 1;
      var inner := Recorded(keys[..n], states[..n], prev);
      var full := Recorded(keys, states, prev);
      assert full == inner[keys[n] := states[n]];
      RisingEdgesAgree(keys[..n], states[..n], full, inner);
      NoRepeatCount(keys[..n], states[..n], prev);
    }
  }

  /** Counting over keys whose recorded states agree in two tables gives the same count. */
  lemma {:induction false} RisingEdgesAgree(keys: seq<int>, states: seq<int>, a: map<int, int>, b: map<int, int>)
    requires |keys| == |states|
    requires forall i :: 0 <= i < |keys| ==> StateOf(a, keys[i]) == StateOf(b, keys[i])
    ensures RisingEdges(keys, states, a) == RisingEdges(keys, states, b)
  {
    if keys != [] {
      var n := |keys| - 1;
      RisingEdgesAgree(keys[..n], states[..n], a, b);
    }
  }

  // ---------------------------------------------------------------- mouse

  function Square(x: int): int { x * x }

  class MouseTracker {
    const anticheat: AntiCheatDetector
    var lastPosition: Option<(int, int)>
    var lastMoveTime: int
    var totalDistance: real
    var realActivity: bool

    constructor(detector: AntiCheatDetector, now: int)
      ensures anticheat == detector && lastPosition == None && lastMoveTime == now
      ensures totalDistance == 0.0 && realActivity
    {
      anticheat := detector;
      lastPosition := None;
      lastMoveTime := now;
      totalDistance := 0.0;
      realActivity := true;
    }

    /** `has_moved`: `pos` is the cursor position now, `title` the foreground
        window title (None when unreadable), `distance` the Euclidean length of
        the step from the last position. The first call only records the
        position and reports movement; later calls report whether the cursor
        moved and, if it did, feed the step to the detector, check the window,
        add the distance and restart the idle clock. */
    method HasMoved(pos: (int, int), now: int, distance: real, title: Option<string>) returns (moved: bool)
      requires anticheat.Valid()
      requires lastPosition.Some? ==>
        distance >= 0.0 &&
        distance * distance == (Square(pos.0 - lastPosition.value.0) + Square(pos.1 - lastPosition.value.1)) as real
      modifies this`lastPosition, this`lastMoveTime, this`totalDistance, anticheat
      ensures anticheat.Valid()
      ensures old(lastPosition).None? ==>
        moved && lastPosition == Some(pos) && lastMoveTime == old(lastMoveTime)
        && totalDistance == old(totalDistance) && unchanged(anticheat)
      ensures old(lastPosition).Some? ==> (moved <==> pos != old(lastPosition).value)
      ensures old(lastPosition).Some? && moved ==>
        && lastPosition == Some(pos) && lastMoveTime == now
        && totalDistance == old(totalDistance) + distance
        && anticheat.movementHistory
           == Push(old(anticheat.movementHistory), Movement(now, pos.0, pos.1, distance), MovementCap)
        && anticheat.distanceHistory == Push(old(anticheat.distanceHistory), distance, DistanceCap)
        && anticheat.windowChangeCount
           == old(anticheat.windowChangeCount) + (if title.Some? && title.value != old(anticheat.lastWindowTitle) then 1 else 0)
      // From the second step on, the time since the previous step is an interval.
      ensures old(lastPosition).Some? && moved ==>
        anticheat.intervalHistory
        == if old(anticheat.movementHistory) == [] then old(anticheat.intervalHistory)
           else Push(old(anticheat.intervalHistory),
                     now - old(anticheat.movementHistory)[|old(anticheat.movementHistory)| - 1].time, IntervalCap)
      // A new readable title is a window change at `now`.
      ensures old(lastPosition).Some? && moved ==>
        if title.Some? && title.value != old(anticheat.lastWindowTitle)
        then anticheat.lastWindowTitle == title.value && anticheat.lastWindowChange == now
        else anticheat.lastWindowTitle == old(anticheat.lastWindowTitle)
             && anticheat.lastWindowChange == old(anticheat.lastWindowChange)
      // The keyboard clock and the verdict are never touched.
      ensures anticheat.lastKeyboardTime == old(anticheat.lastKeyboardTime)
              && anticheat.keyboardCount == old(anticheat.keyboardCount)
      ensures anticheat.isCheating == old(anticheat.isCheating) && anticheat.cheatScore == old(anticheat.cheatScore)
              && anticheat.cheatReason == old(anticheat.cheatReason)
              && anticheat.suspiciousEvents == old(anticheat.suspiciousEvents)
      ensures old(lastPosition).Some? && !moved ==>
        lastPosition == old(lastPosition) && lastMoveTime == old(lastMoveTime)
        && totalDistance == old(totalDistance) && unchanged(anticheat)
    {
      if lastPosition.None? {
        lastPosition := Some(pos);
        return true;
      }
      moved := pos != lastPosition.value;
      if moved {
        anticheat.AddMovement(lastPosition, pos, now, distance);
        var _ := anticheat.CheckActiveWindow(title, now);
        totalDistance := totalDistance + distance;
        lastPosition := Some(pos);
        lastMoveTime := now;
      }
    }

    /** `is_real_activity`: the detector's verdict, negated and remembered. */
    method IsRealActivity(s: Settings, now: int, sd: real) returns (isReal: bool)
      requires anticheat.Valid() && StdevOf(anticheat.intervalHistory, sd)
      modifies this`realActivity
      modifies anticheat`cheatScore, anticheat`isCheating, anticheat`cheatReason, anticheat`suspiciousEvents
      ensures anticheat.Valid()
      ensures isReal == realActivity
      ensures !s.enabled ==> isReal && unchanged(anticheat)
      ensures s.enabled ==> isReal == (anticheat.cheatScore < 50.0)
      // The score and the reasons are `analyze`'s checks on the detector's
      // histories and clocks, which judging leaves as they were.
      ensures s.enabled ==>
        var jitter := DetectJitter(anticheat.movementHistory, anticheat.intervalHistory, s, sd);
        var kb := DetectNoKeyboard(s, now, anticheat.lastKeyboardTime);
        var win := DetectNoWindowChange(s, now, anticheat.lastWindowChange);
        var issues := Issues(jitter, kb, win);
        && anticheat.cheatScore == Score(jitter, kb.hit, win.hit)
        && anticheat.cheatReason == JoinReasons(issues)
        && anticheat.suspiciousEvents
           == if isReal then old(anticheat.suspiciousEvents)
              else Push(old(anticheat.suspiciousEvents), Event(now, anticheat.cheatScore, issues), EventCap)
    {
      var cheating, _, _ := anticheat.Analyze(s, now, sd);
      realActivity := !cheating;
      isReal := realActivity;
    }

    /** `get_idle_seconds`. */
    function IdleSeconds(now: int): (r: int)
      reads this`lastMoveTime
      ensures r == now - lastMoveTime
    {
      now - lastMoveTime
    }
  }
}
