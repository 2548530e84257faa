/** The retention rule of `ScreenshotManager.cleanup_old`: screenshots whose
    name carries a date before the cutoff instant, and daily logs whose date
    text sorts before the cutoff's date text, are deleted; everything else,
    including every file whose name cannot be read, stays. The two
    directories are a set of screenshot names and the data directory's
    `Store`; the clock reading is a parameter. */
module Retention {
  import opened Common
  import opened Storage
  import opened Calendar
  import opened DayRange

  /** A `datetime`: a date and the time of day in microseconds. */
  datatype Instant = Instant(date: Date, micros: int)

  predicate ValidInstant(t: Instant)
  {
    InRange(t.date) && 0 <= t.micros < 86_400_000_000
  }

  /** `a < b` on `datetime`s: by date, then by time of day. */
  predicate Earlier(a: Instant, b: Instant)
    requires ValidInstant(a) && ValidInstant(b)
  {
    Ordinal(a.date) < Ordinal(b.date) || (a.date == b.date && a.micros < b.micros)
  }

  /** `now - timedelta(days=retention_days)`: the same time of day that many
      days earlier; None where Python raises `OverflowError` (before year 1
      or after year 9999). */
  function Cutoff(now: Instant, retentionDays: int): (r: Option<Instant>)
    requires ValidInstant(now)
    ensures r.Some? <==> 1 <= Ordinal(now.date) - retentionDays <= MaxOrdinal
    ensures r.Some? ==> ValidInstant(r.value) && r.value.micros == now.micros &&
                        Ordinal(r.value.date) == Ordinal(now.date) - retentionDays
  {
    var o := Ordinal(now.date) - retentionDays;
    if 1 <= o <= MaxOrdinal then Some(Instant(DateOf(o), now.micros)) else None
  }

  // ---------------------------------------------------------------- screenshots

  /** `SCREENSHOTS_DIR.glob("screenshot_*.png")`. */
  predicate ShotGlob(name: string)
  {
    |name| >= 15 && name[..11] == "screenshot_" && name[|name| - 4..] == ".png"
  }

  /** `s.split("_")[1]`: the text between the first and the second '_' (or
      the end); None where there is no '_' (`IndexError`). */
  function SecondField(s: string): (r: Option<string>)
    ensures r.Some? ==> forall i :: 0 <= i < |r.value| ==> r.value[i] != '_'
  {
    var first := IndexOf(s, '_');
    if first == |s| then None
    else
      var rest := s[first + 1..];
      Some(rest[..IndexOf(rest, '_')])
  }

  /** `%m%d` with nothing between them, as the regular expression engine of
      `strptime` tries them: each month alternative in order
      (`1[0-2]|0[1-9]|[1-9]`), and after it the first day alternative that
      matches; when none does, the next month alternative. Gives the month,
      the day and what follows. */
  function MatchMonthDay(s: string): (r: Option<(int, int, string)>)
    ensures r.Some? ==> 1 <= r.value.0 <= 12 && 1 <= r.value.1 <= 31
  {
    if |s| >= 2 && s[0] == '1' && '0' <= s[1] <= '2' && MatchDay(s[2..]).Some? then
      Some((10 + DigitOf(s[1]), MatchDay(s[2..]).value.0, MatchDay(s[2..]).value.1))
    else if |s| >= 2 && s[0] == '0' && '1' <= s[1] <= '9' && MatchDay(s[2..]).Some? then
      Some((DigitOf(s[1]), MatchDay(s[2..]).value.0, MatchDay(s[2..]).value.1))
    else if |s| >= 1 && '1' <= s[0] <= '9' && MatchDay(s[1..]).Some? then
      Some((DigitOf(s[0]), MatchDay(s[1..]).value.0, MatchDay(s[1..]).value.1))
    else None
  }

  /** `datetime.strptime(s, "%Y%m%d")` as a date; None wherever Python
      raises `ValueError` (no match, data left over, no such day). */
  function ParseCompactDate(s: string): (r: Option<Date>)
    ensures r.Some? ==> InRange(r.value)
  {
    if |s| < 4 || !AllDigits(s[..4]) then None
    else
      DigitsBound(s[..4]);
      var year := DigitsValue(s[..4]);
      match MatchMonthDay(s[4..])
      case None => None
      case Some((month, day, rest)) =>
        if rest != [] || !Valid(Date(year, month, day)) then None
        else Some(Date(year, month, day))
  }

  /** The date a screenshot's name carries: `file.stem.split("_")[1]` read
      with `%Y%m%d`. */
  function ShotDate(name: string): Option<Date>
    requires ShotGlob(name)
  {
    match SecondField(name[..|name| - 4])
    case None => None
    case Some(field) => ParseCompactDate(field)
  }

  /** The screenshot is deleted: its name has a date, and midnight of that
      date is before the cutoff instant. */
  predicate ShotExpired(name: string, cutoff: Instant)
    requires ValidInstant(cutoff)
  {
    ShotGlob(name) && ShotDate(name).Some? && Earlier(Instant(ShotDate(name).value, 0), cutoff)
  }

  /** The name `capture` gives a screenshot taken at `d` `h:m:s`:
      `screenshot_%Y%m%d_%H%M%S.png`. */
  function ShotName(d: Date, h: int, m: int, s: int): string
    requires InRange(d) && 0 <= h < 24 && 0 <= m < 60 && 0 <= s < 60
  {
    "screenshot_" + (Pad4(d.year) + (Pad2(d.month) + (Pad2(d.day) + ("_" + (Pad2(h) + Pad2(m) + Pad2(s) + ".png")))))
  }

  /** Two digits of month then two of day read back as themselves. */
  lemma MatchMonthDayPad(m: int, d: int)
    requires 1 <= m <= 12 && 1 <= d <= 31
    ensures MatchMonthDay(Pad2(m) + Pad2(d)) == Some((m, d, []))
  {
    var s := Pad2(m) + Pad2(d);
    assert s[2..] == Pad2(d) + [];
    MatchDayPad(d, []);
  }

  /** A name `capture` gives carries the date it was taken. */
  lemma ShotDateOf(d: Date, h: int, m: int, s: int)
    requires InRange(d) && 0 <= h < 24 && 0 <= m < 60 && 0 <= s < 60
    ensures ShotGlob(ShotName(d, h, m, s)) && ShotDate(ShotName(d, h, m, s)) == Some(d)
  {
    var digits := Pad4(d.year) + (Pad2(d.month) + Pad2(d.day));
    var time := Pad2(h) + Pad2(m) + Pad2(s);
    var name := ShotName(d, h, m, s);
    assert name == "screenshot" + ['_'] + (digits + ("_" + time + ".png"));
    assert name[..11] == "screenshot_";
    var stem := name[..|name| - 4];
    assert stem == "screenshot" + ['_'] + (digits + ['_'] + time);
    StemField(digits, time);
    assert digits[..4] == Pad4(d.year) && digits[4..] == Pad2(d.month) + Pad2(d.day);
    MatchMonthDayPad(d.month, d.day);
  }

  /** The second `_`-separated field of a capture's stem is its date digits. */
  lemma StemField(digits: string, time: string)
    requires AllDigits(digits)
    ensures SecondField("screenshot" + ['_'] + (digits + ['_'] + time)) == Some(digits)
  {
    var stem := "screenshot" + ['_'] + (digits + ['_'] + time);
    IndexOfAfter("screenshot", '_', digits + ['_'] + time);
    assert stem[11..] == digits + ['_'] + time;
    IndexOfAfter(digits, '_', time);
    assert (digits + ['_'] + time)[..|digits|] == digits;
  }

  /** A screenshot is deleted exactly when it was taken on a day before the
      cutoff's day, or on the cutoff's day itself when the cutoff is later
      than midnight. */
  lemma ShotExpiredIff(d: Date, h: int, m: int, s: int, cutoff: Instant)
    requires InRange(d) && 0 <= h < 24 && 0 <= m < 60 && 0 <= s < 60 && ValidInstant(cutoff)
    ensures ShotExpired(ShotName(d, h, m, s), cutoff)
            <==> Ordinal(d) < Ordinal(cutoff.date) || (d == cutoff.date && cutoff.micros > 0)
  {
    ShotDateOf(d, h, m, s);
  }

  /** The engine backtracks: `20241` then `2` is month 1, day 2, since the
      month `12` leaves no day. */
  lemma CompactBacktracks()
    ensures ParseCompactDate("202412") == Some(Date(2024, 1, 2))
  {
    var s := "202412";
    assert s[..4] == "2024" && AllDigits(s[..4]);
    assert DigitsValue("2024") == 2024 by {
      assert "2024"[..3] == "202" && "202"[..2] == "20" && "20"[..1] == "2" && "2"[..0] == [];
    }
    assert s[4..] == "12";
    assert "12"[2..] == [] && "12"[1..] == "2" && "2"[1..] == [];
    assert MatchDay([]) == None;
    assert MatchDay("2") == Some((2, []));
    assert MatchMonthDay("12") == Some((1, 2, []));
  }

  // ---------------------------------------------------------------- logs

  /** The daily log is deleted: its name is `d*.dat`, it tells a non-empty
      date text, and that text sorts before the cutoff's `%Y-%m-%d`. */
  predicate LogExpired(name: string, cutoffText: string)
  {
    StartsEnds(name) && DateFromLogFileName(name).Some? && DateFromLogFileName(name).value != [] &&
    LexLess(DateFromLogFileName(name).value, cutoffText)
  }

  /** The log of a date is deleted exactly when the date is before the
      cutoff's date: the cutoff's own day is kept whatever its time. */
  lemma LogExpiredIff(d: Date, cutoff: Instant)
    requires InRange(d) && ValidInstant(cutoff)
    ensures LogExpired(LogFileName(DateString(d)), DateString(cutoff.date)) <==> Ordinal(d) < Ordinal(cutoff.date)
  {
    var name := LogFileName(DateString(d));
    DateFromLogFileNameOf(DateString(d));
    assert StartsEnds(name);
    DateStringOrder(d, cutoff.date);
  }

  /** The two rules part on the cutoff's own day: after midnight, that
      day's screenshots go while its log stays. */
  lemma CutoffDay(h: int, m: int, s: int, cutoff: Instant)
    requires ValidInstant(cutoff) && cutoff.micros > 0 && 0 <= h < 24 && 0 <= m < 60 && 0 <= s < 60
    ensures ShotExpired(ShotName(cutoff.date, h, m, s), cutoff)
    ensures !LogExpired(LogFileName(DateString(cutoff.date)), DateString(cutoff.date))
  {
    ShotExpiredIff(cutoff.date, h, m, s, cutoff);
    LogExpiredIff(cutoff.date, cutoff);
  }

  // ---------------------------------------------------------------- the sweep

  /** The screenshot loop: every expired name is unlinked and counted. */
  method SweepShots(shots: set<string>, cutoff: Instant) returns (kept: set<string>, removed: nat)
    requires ValidInstant(cutoff)
    ensures kept == set n | n in shots && !ShotExpired(n, cutoff)
    ensures removed == |set n | n in shots && ShotExpired(n, cutoff)|
  {
    kept := shots;
    removed := 0;
    var todo := shots;
    ghost var gone: set<string> := {};
    while todo != {}
      invariant todo <= shots
      invariant gone == set n | n in shots - todo && ShotExpired(n, cutoff)
      invariant kept == shots - gone && removed == |gone|
      decreases |todo|
    {
      var n :| n in todo;
      if ShotExpired(n, cutoff) {
        kept := kept - {n};
        removed := removed + 1;
        gone := gone + {n};
      }
      todo := todo - {n};
    }
  }

  /** The log loop: every expired log file is unlinked and counted. */
  method SweepLogs(data: Store, cutoffText: string) returns (kept: Store, removed: nat)
    ensures kept == map n | n in data && !LogExpired(n, cutoffText) :: data[n]
    ensures removed == |set n | n in data && LogExpired(n, cutoffText)|
  {
    kept := data;
    removed := 0;
    var todo := data.Keys;
    ghost var gone: set<string> := {};
    while todo != {}
      invariant todo <= data.Keys
      invariant gone == set n | n in data.Keys - todo && LogExpired(n, cutoffText)
      invariant kept == data - gone
      invariant removed == |gone|
      decreases |todo|
    {
      var n :| n in todo;
      if LogExpired(n, cutoffText) {
        RemoveOneMore(data, gone, n);
        kept := kept - {n};
        removed := removed + 1;
        gone := gone + {n};
      }
      todo := todo - {n};
    }
    KeptLogs(data, gone, cutoffText);
  }

  lemma RemoveOneMore(data: Store, gone: set<string>, n: string)
    ensures (data - gone) - {n} == data - (gone + {n})
  {
  }

  lemma KeptLogs(data: Store, gone: set<string>, cutoffText: string)
    requires gone == set n | n in data.Keys && LogExpired(n, cutoffText)
    ensures data - gone == map n | n in data && !LogExpired(n, cutoffText) :: data[n]
  {
  }

  /** `cleanup_old`: the cutoff, then both sweeps; the count of removed
      files. Nothing is removed where computing the cutoff raises. */
  method CleanupOld(shots: set<string>, data: Store, now: Instant, retentionDays: int)
    returns (ok: bool, keptShots: set<string>, keptData: Store, removed: nat)
    requires ValidInstant(now)
    ensures ok <==> Cutoff(now, retentionDays).Some?
    ensures !ok ==> keptShots == shots && keptData == data && removed == 0
    ensures ok ==> var cutoff := Cutoff(now, retentionDays).value;
                   keptShots == (set n | n in shots && !ShotExpired(n, cutoff)) &&
                   keptData == (map n | n in data && !LogExpired(n, DateString(cutoff.date)) :: data[n]) &&
                   removed == |set n | n in shots && ShotExpired(n, cutoff)|
                              + |set n | n in data && LogExpired(n, DateString(cutoff.date))|
  {
    var cutoff := Cutoff(now, retentionDays);
    if cutoff.None? {
      return false, shots, data, 0;
    }
    var removedShots, removedLogs;
    keptShots, removedShots := SweepShots(shots, cutoff.value);
    keptData, removedLogs := SweepLogs(data, DateString(cutoff.value.date));
    ok, removed := true, removedShots + removedLogs;
  }

  /** Every log of a day on or after the cutoff's day survives the sweep,
      and every log of an earlier day is gone. */
  lemma SweepKeepsRecentLogs(data: Store, cutoff: Instant, d: Date)
    requires ValidInstant(cutoff) && InRange(d) && LogFileName(DateString(d)) in data
    ensures var kept := map n | n in data && !LogExpired(n, DateString(cutoff.date)) :: data[n];
            LogFileName(DateString(d)) in kept <==> Ordinal(cutoff.date) <= Ordinal(d)
  {
    LogExpiredIff(d, cutoff);
  }
}
