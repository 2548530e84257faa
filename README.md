# Task-Tracker work monitor, modelled in Dafny

A Dafny model of the core of the Task-Tracker work monitor. The monitor is a Windows
desktop program: once a second it looks at the mouse, the keyboard and the foreground
window. During office hours it credits the time to work, to suspicious ("flagged") time
or to idle time. It keeps one Base64-encoded JSON log file per day with an obfuscated
name. A web API, an always-on-top overlay and a weekly e-mail report read these files.

The modules follow the program's structure:

- `Common`: options, bytes, and how Python writes integers (`str(n)`, `f"{n:02d}"`,
  truncating division).
- `Utf8`, `Base64`, `JsonCodec`, `Storage`: the storage codec.
  - `encode_data` / `decode_data`: UTF-8, then Base64 as in RFC 4648, over a stand-in
    for JSON text.
  - `get_log_filename` / `date_from_log_filename`: the name of each day's log file.
  - `load_date`: reading a day's log from the data directory. The directory is a map
    from file name to text.
- `Calendar`, `DayRange`: Python's proleptic Gregorian dates, and the day-by-day walk
  that both range summaries share.
- `DesktopSummary`: the desktop `ActivityLogger.get_date_range_summary`, and its week,
  month and year ranges.
- `Api`: from the web API (`api/main.py`):
  - `load_today` and its fallback;
  - the range summary with its totals and averages;
  - the range endpoint's date checks;
  - `format_time` and `format_summary_stats`.
- `Settings`: the `Config` class. Defaults are merged with the stored file, `get` falls
  back to the default, and `set` and the password both save.
- `Retention`: the retention rule of `ScreenshotManager.cleanup_old`.
- `ActivityLog`: the `ActivityLogger` class.
  - The day's record and its JSON form.
  - Each mutator and the save that follows it.
  - The idle-period bookkeeping and `get_summary`.
- `AntiCheat`: `AntiCheatDetector`, `KeyboardTracker.check_activity` and
  `MouseTracker.has_moved`.
  - The detector's bounded histories.
  - The jitter, oscillation, keyboard and window checks, and the weighted score.
  - The verdict and its event log.
- `Monitor`: one pass of `monitor_loop` as `MonitorApp.Tick`, and
  `is_work_hours` / `is_overtime`.
- `Overlay`: what one `update_display` of the overlay shows.
- `EmailReport`: from the weekly e-mail report:
  - the week it covers;
  - the productivity figure, its bar and its insight;
  - the rows of the daily table;
  - the gate before sending.

Objects whose fields the program updates in place are classes with `modifies` clauses:
`Config`, `ActivityLogger`, the detector, the two trackers and the application. Each
mutating method states its new state through a specification function on values
(`WithWork`, `OpenedIdle`, `ClosedIdle`, `PassLog`, `Push`). Lemmas about those
functions state what the program promises.

## Model

| member | source | states |
|---|---|---|
| Storage.EncodeData | WorkMonitor/src/work_monitor.py:69-72 | the stored text is Base64: its length is a multiple of four and every character is in the alphabet or '=' |
| Storage.DecodeEncodeData | WorkMonitor/src/work_monitor.py:69-81 | `decode_data(encode_data(v)) == v` for every JSON value |
| Base64.Encode | WorkMonitor/src/work_monitor.py:72 | `b64encode` of n bytes is 4·⌈n/3⌉ characters: alphabet characters, then 0, 2 or 1 '=' for n mod 3 = 0, 1 or 2 |
| Base64.EncodeText | WorkMonitor/src/work_monitor.py:72 | every encoding is whole groups of four characters from the alphabet or '=' |
| Base64.DecodeEncode | WorkMonitor/src/work_monitor.py:72-77 | `b64decode(b64encode(b)) == b` for every byte string |
| Base64.LoneCharacterRejected | WorkMonitor/src/work_monitor.py:77-81 | a lone alphabet character does not decode (the error path that `decode_data` turns into None) |
| Utf8.DecodeEncode | WorkMonitor/src/work_monitor.py:72-77 | `bytes.decode()` undoes `str.encode()` for every string of scalar values |
| Utf8.DecodeEncodeChar | WorkMonitor/src/work_monitor.py:72-77 | each character's one- to four-byte encoding decodes back to it, whatever follows |
| Utf8.StrayContinuationRejected | WorkMonitor/src/work_monitor.py:77-81 | a byte string that starts with a continuation byte does not decode (`UnicodeDecodeError`, caught as None) |
| JsonCodec.LoadsSerialize | WorkMonitor/src/work_monitor.py:71-78 | `json.loads(json.dumps(v)) == v` for the stand-in serialiser |
| JsonCodec.ParseSerialize | WorkMonitor/src/work_monitor.py:71-78 | any value's text parses back to the value, leaving whatever follows it |
| JsonCodec.SerializeInjective | WorkMonitor/src/work_monitor.py:71 | distinct values never share a text |
| JsonCodec.LookupDistinct | WorkMonitor/src/work_monitor.py:477-479 | in an object without repeated keys, looking a key up gives its own value |
| Storage.LogFileName | WorkMonitor/src/work_monitor.py:83-86 | a log file name starts with 'd', ends with '.dat', and between them holds only alphabet characters other than '/', or '_' (no '=' and no '/') |
| Storage.RemoveChar | WorkMonitor/src/work_monitor.py:85 | `replace(c, '')` leaves no c and only characters of the input |
| Storage.ReplaceChar | WorkMonitor/src/work_monitor.py:85 | `replace(a, b)` changes exactly the a's, position by position |
| Storage.RestorePadding | WorkMonitor/src/work_monitor.py:92-95 | re-padding the unpadded text to a multiple of four restores the padded encoding |
| Storage.DateFromLogFileNameOf | WorkMonitor/src/work_monitor.py:83-100 | `date_from_log_filename(get_log_filename(d)) == d` for every date text |
| Storage.LogFileNameInjective | WorkMonitor/src/work_monitor.py:83-86 | two dates with the same file name are the same date |
| Storage.LoadDate | api/main.py:69-79 | a date whose file is missing loads as None |
| Storage.LoadDateAfterWrite | WorkMonitor/src/work_monitor.py:537-548 | after a record is written under a date's name, loading that date gives the record |
| Storage.LoadDateOtherWrite | WorkMonitor/src/work_monitor.py:537-548 | writing one date's file leaves the log of every other date as it was |
| Common.NatToString | api/main.py:574 | `str(n)` is a non-empty run of digits denoting n, with no leading zero |
| Common.IntToString | api/main.py:574 | `str(i)` is `str(-i)` after a '-' for negative i |
| Common.Pad2 | WorkMonitor/src/overlay_widget.py:212 | `f"{n:02d}"` is two digits denoting n |
| Common.ReadIntString | api/main.py:574 | the text of an integer reads back as that integer |
| Common.LexLessDigits | WorkMonitor/src/work_monitor.py:786 | equal-length digit strings compare as text exactly as their values compare |
| Common.TruncDiv | api/main.py:612-620 | `int(a / b)` for b > 0 is the quotient truncated toward zero |
| Common.Trunc | api/main.py:612-620 | `int(x)` truncates toward zero |
| Calendar.DaysBeforeYearFormula | api/main.py:168-172 | the day count before a year is the closed form of Python's `datetime` (365 a year plus the Gregorian leap days) |
| Calendar.OrdinalOrder | api/main.py:117 | day numbers order dates as Python compares them, and equal day numbers mean equal dates |
| Calendar.Weekday | api/main.py:171 | `weekday()` lies in 0..6 |
| Calendar.NextDay | api/main.py:149 | `current + timedelta(days=1)` is a valid date one day number later |
| Calendar.AddDays | api/main.py:171 | adding k days moves the day number by exactly k |
| Calendar.WeekStart | api/main.py:168-172 | `today - timedelta(days=today.weekday())` is a Monday, at most six days before today |
| Calendar.MonthStart | api/main.py:174-178 | `today.replace(day=1)` is the first of today's month, not after today |
| Calendar.YearStart | api/main.py:180-184 | `today.replace(month=1, day=1)` is 1 January of today's year, not after today |
| Calendar.DateString | api/main.py:118 | `strftime("%Y-%m-%d")` is ten characters with '-' at positions 4 and 7 |
| Calendar.DateStringOrder | WorkMonitor/src/work_monitor.py:783-788 | comparing two `%Y-%m-%d` texts as strings is comparing the dates |
| Calendar.ParseDate | api/main.py:358-359 | what `strptime(s, "%Y-%m-%d")` accepts is a valid date of a four-digit year |
| Calendar.ParseDateString | api/main.py:358-359 | parsing the `%Y-%m-%d` text of a date gives the date back |
| DayRange.DateOf | api/main.py:116-149 | the date of a day number in 1..date(9999,12,31) is in range and has that day number |
| DayRange.DateOfOrdinal | api/main.py:116-149 | every in-range date is the date of its day number |
| DayRange.StepsSound | api/main.py:116-149 | the visited days lie in the range, pass the `if log:` test, and come in strictly increasing order |
| DayRange.StepsComplete | api/main.py:116-149 | no day of the range that passes the test is skipped |
| DayRange.StepsSplit | api/main.py:116-149 | visiting lo..hi is visiting lo..mid and then mid..hi |
| DayRange.IntField | api/main.py:121-127 | `log.get(key, 0)` is 0 for a missing key and the stored integer otherwise (a decimal counter is an error here; see Left out) |
| DayRange.SizeField | api/main.py:125 | `len(log.get(key, []))` is 0 for a missing key and the list's length otherwise |
| DayRange.KeyCount | WorkMonitor/src/work_monitor.py:686 | a non-empty object has at least one and at most as many distinct keys as members |
| DayRange.EntriesAppend | api/main.py:116-149 | entries of two runs of days are the entries of each, or None when either has an unreadable day |
| DayRange.WalkStep | api/main.py:116-149 | one more day: a skipped day changes nothing, an unreadable day ends the walk, a read day appends its entry |
| DayRange.WalkFromEntries | api/main.py:116-149 | the walk is the entries of exactly the days it does not skip |
| DayRange.WalkFails | api/main.py:116-149 | once the walk fails it stays failed |
| DayRange.EntriesNone | api/main.py:116-149 | entries fail exactly when one of the days does not read |
| DayRange.WalkSplit | api/main.py:116-149 | walking lo..hi is walking lo..mid and then mid..hi (additivity) |
| DayRange.WalkedNone | api/main.py:116-149 | the walk fails exactly when a kept day is unreadable or the range reaches the last representable day |
| DayRange.WalkedLength | api/main.py:116-149 | at most one entry per day of the range, none when the start is after the end |
| DayRange.LoggedSteps | api/main.py:116-149 | the kept days are exactly the days of the range with a truthy log, each once, in increasing order |
| DayRange.WalkContains | api/main.py:116-149 | a day of the range that reads has its entry in the walk |
| DayRange.DayNameOrder | api/main.py:118 | later day numbers have later date texts |
| Api.DefaultLog | api/main.py:89-103 | the fallback record is an object of the thirteen keys |
| Api.LoadToday | api/main.py:81-87 | `load_today` always gives a truthy record, and the stored record when it loads and is truthy |
| Api.DefaultIsFreshRecord | api/main.py:89-103 | the fallback is the record the monitor starts a day with (`ActivityLogger.load_today`) |
| Api.LoadTodayFallback | api/main.py:81-103 | a missing, undecodable or falsy record gives the zero-valued record dated today, with `current_idle_start` None |
| Api.LoadTodayWritten | api/main.py:81-87 | a truthy record written under today's name is what `load_today` returns |
| Api.EntryOf | api/main.py:120-148 | an entry exists only for an object, and carries the day's date |
| Api.EntryOfMonitorRecord | api/main.py:120-148 | a record the monitor wrote always reads back, counter for counter |
| Api.ReadDay | api/main.py:118-120 | a day is skipped exactly when it has no truthy log |
| Api.ReadDayDate | api/main.py:118-139 | an entry carries the name of its day |
| Api.DayOf | api/main.py:120-148 | a day with a truthy log is never skipped; its entry carries its date |
| Api.TotalAppend | api/main.py:129-135 | a total over two runs is the sum of the totals |
| Api.TotalRealWork | api/main.py:143-159 | summed real work is summed work less summed suspicious time |
| Api.AverageExact | api/main.py:151-164 | the average times the number of days is the total; no days average 0 |
| Api.TotalsOfSnoc | api/main.py:129-135 | adding a day's entry to the seven running totals keeps them the totals of the breakdown |
| Api.WalkDays | api/main.py:116-149 | the loop returns the walk's breakdown and its seven totals, and fails exactly when the walk fails |
| Api.DateRangeSummary | api/main.py:105-166 | the method gives the summary the specification function gives |
| Api.SummarizeIs | api/main.py:150-166 | a summary with the breakdown's totals and averages is the returned dictionary |
| Api.LoggedDaysAre | api/main.py:116-149 | the kept days are the days of the range with a truthy log, each once, in increasing order |
| Api.ReadDayIs | api/main.py:118-148 | an entry comes from a truthy log, read by `EntryOf` |
| Api.SummaryBreakdown | api/main.py:116-149 | one entry per logged day of the range, in order, each what that day reads to |
| Api.SummaryFails | api/main.py:105-166 | the summary fails exactly when a kept day is unreadable or the range ends on the last representable day |
| Api.SummaryLength | api/main.py:116-149 | the breakdown has at most one entry per day of [start, end] |
| Api.SummaryOrdered | api/main.py:116-149 | the breakdown's dates are strictly increasing, so no date repeats |
| Api.SummaryComplete | api/main.py:116-149 | every day of the range that reads has its entry in the breakdown |
| Api.SummaryTotals | api/main.py:124-159 | total work and total real work are the sums over the breakdown; no logged day totals 0 |
| Api.SummaryAverages | api/main.py:151-164 | each average is its total over the number of logged days, 0 when there is none |
| Api.RealWorkUnclamped | api/main.py:143-159 | real work is not clamped: 60 s of work with 100 s suspicious totals -40 |
| Api.WeekSummary | api/main.py:168-172 | the week summary has at most seven days |
| Api.MonthSummary | api/main.py:174-178 | the month summary has at most as many days as today's day of the month |
| Api.YearSummary | api/main.py:180-184 | the year summary has at most as many days as the year |
| Api.ReversedRangeAsWritten | api/main.py:354-369 | as written, a start after the end is answered 500 with the 400's text as detail |
| Api.ReversedRangeExample | api/main.py:354-369 | `start=2024-01-02&end=2024-01-01` gets a 500 |
| Api.RangeAnswerCases | api/main.py:354-369 | intended: 400 exactly for an unparsable parameter or a start after the end; otherwise the summary, or 500 where it raises |
| Api.RangeAnswerFixed | api/main.py:360-361 | as written and as intended differ exactly on a start after the end |
| Api.FormatTimeReadsBack | api/main.py:571-583 | reading `format_time`'s text back gives the duration it shows: all of it under a minute, else its whole minutes (hours and leftover minutes, minutes dropped when 0) |
| Api.ReadHoursMinutesText | api/main.py:580-582 | "{h}h {m}m" reads as h hours and m minutes |
| Api.HoursMinutes | api/main.py:579-580 | `s // 3600` hours and `(s % 3600) // 60` minutes make up the whole minutes of s |
| Api.Stat | api/main.py:592-595 | each formatted stat keeps its seconds and its text reads back as the shown duration |
| Api.FormatSummaryStats | api/main.py:585-627 | the formatted work, real work and per-day work read back as the durations shown |
| Api.StatsOfSummary | api/main.py:585-627 | for a range summary, real work is work less suspicious time and each per-day average is the total over the logged days truncated toward zero (0 with none) |
| Api.TruncQuotient | api/main.py:612-620 | `int(a / n)` equals the quotient truncated toward zero |
| Api.QuotientOrder | api/main.py:612-620 | k is below the real quotient exactly when k multiples are below the dividend |
| DesktopSummary.HoursField | WorkMonitor/src/work_monitor.py:688-692 | `log.get(key, 0) / 3600`: 0 for a missing key; otherwise hours that times 3600 give the stored seconds |
| DesktopSummary.EntryOf | WorkMonitor/src/work_monitor.py:685-708 | an entry exists only for an object and carries the day's date and weekday name |
| DesktopSummary.EntryOfMonitorRecord | WorkMonitor/src/work_monitor.py:685-708 | a record the monitor wrote always reads back: each hour count times 3600 is the stored seconds, and the screenshot count is the list's length |
| DesktopSummary.ReadDay | WorkMonitor/src/work_monitor.py:685-687 | a day is skipped exactly when it has no truthy log |
| DesktopSummary.DayOf | WorkMonitor/src/work_monitor.py:700-708 | a logged day is never skipped, and its entry carries its date and its `strftime("%A")` name |
| DesktopSummary.ReaderSkips | WorkMonitor/src/work_monitor.py:685-687 | the walk's reader skips exactly the days without a truthy log |
| DesktopSummary.DaysWorked | WorkMonitor/src/work_monitor.py:718 | the days worked are no more than the days listed |
| DesktopSummary.DaysWorkedCount | WorkMonitor/src/work_monitor.py:718 | the days worked are the positions of `daily_data` with positive work |
| DesktopSummary.TotalsOfSnoc | WorkMonitor/src/work_monitor.py:694-698 | adding a day's entry to the five running totals keeps them the totals of the breakdown |
| DesktopSummary.TotalsAppend | WorkMonitor/src/work_monitor.py:694-698 | totals and days worked of two runs of days add up |
| DesktopSummary.ClampedRealWork | WorkMonitor/src/work_monitor.py:716 | `max(0, work - suspicious)` is never negative, at least work less suspicious time, and one of the two |
| DesktopSummary.AverageWork | WorkMonitor/src/work_monitor.py:720 | the average times `max(1, days_worked)` is the total work |
| DesktopSummary.Summarize | WorkMonitor/src/work_monitor.py:711-721 | the work, idle, overtime and suspicious hours and the screenshot count are the sums over the breakdown; real work is work less suspicious time when that is positive and 0 otherwise; days worked are the entries with positive work; the average times the days worked (at least 1) is the total |
| DesktopSummary.WalkDays | WorkMonitor/src/work_monitor.py:683-709 | the loop returns the walk's `daily_data` and its five totals, and fails exactly when the walk fails |
| DesktopSummary.DateRangeSummary | WorkMonitor/src/work_monitor.py:674-721 | the method gives the summary the specification function gives |
| DesktopSummary.NoDaysWorked | WorkMonitor/src/work_monitor.py:716-720 | with no negative work stored, no day of work means no work and an average of 0 |
| DesktopSummary.SummaryBreakdown | WorkMonitor/src/work_monitor.py:683-709 | `daily_data` holds one entry per logged day of the range, in order, each what that day reads to |
| DesktopSummary.SummaryOrdered | WorkMonitor/src/work_monitor.py:683-709 | the dates of `daily_data` are strictly increasing |
| DesktopSummary.SummaryComplete | WorkMonitor/src/work_monitor.py:683-709 | every day of the range that reads has its entry in `daily_data` |
| DesktopSummary.WalkTotalsSplit | WorkMonitor/src/work_monitor.py:683-709 | where the whole walk succeeds both parts do, and its totals and days worked are theirs added |
| DesktopSummary.WeekSummary | WorkMonitor/src/work_monitor.py:653-658 | the week summary lists at most seven days, and no more days worked than days listed |
| DesktopSummary.MonthSummary | WorkMonitor/src/work_monitor.py:660-665 | the month summary lists at most as many days as today's day of the month |
| DesktopSummary.YearSummary | WorkMonitor/src/work_monitor.py:667-672 | the year summary lists at most as many days as the year has |
| Settings.Replace | WorkMonitor/src/work_monitor.py:483 | assigning an existing key keeps every key in its place |
| Settings.ReplaceLookup | WorkMonitor/src/work_monitor.py:483 | after the replacement the key reads the new value where it existed, and every other key reads as before |
| Settings.PutLookup | WorkMonitor/src/work_monitor.py:483 | after `config[key] = value` the key reads the value and every other key reads as before |
| Settings.MergeLookup | WorkMonitor/src/work_monitor.py:459 | in `{**DEFAULT_CONFIG, **loaded}` a key reads as the loaded record has it, and as the defaults have it otherwise |
| Settings.LoadConfig | WorkMonitor/src/work_monitor.py:451-463 | without a configuration file the settings are the defaults |
| Settings.Setting | WorkMonitor/src/work_monitor.py:477-479 | `get` gives the stored value, else the default, else null |
| Settings.LoadedSetting | WorkMonitor/src/work_monitor.py:451-463 | a stored non-empty object loads, and each setting reads as stored there, else as the defaults have it |
| Settings.LoadWritten | WorkMonitor/src/work_monitor.py:451-476 | a written configuration loads as itself over the defaults, or as the defaults when empty |
| Settings.LoadText | WorkMonitor/src/work_monitor.py:451-463 | a file that decodes to a value loads as that value does: the defaults when falsy, the merge for an object, an error otherwise |
| Settings.EmptySetting | WorkMonitor/src/work_monitor.py:478-480 | every lookup in an empty configuration is the default |
| Settings.SaveLoad | WorkMonitor/src/work_monitor.py:465-476 | saving any configuration and loading it again gives every setting back; an empty one loads as the defaults, which every lookup falls back to |
| Settings.MergedSetting | WorkMonitor/src/work_monitor.py:459 | laying settings over the defaults changes how none of them reads |
| Settings.ConfigIsNoLog | WorkMonitor/src/work_monitor.py:61 | saving the configuration file leaves every day's log as it was |
| Settings.Config.Save | WorkMonitor/src/work_monitor.py:465-476 | the configuration file holds the encoded settings and the settings are unchanged |
| Settings.Config.Get | WorkMonitor/src/work_monitor.py:477-479 | gives the setting's value, with the default as fallback |
| Settings.Config.Set | WorkMonitor/src/work_monitor.py:481-484 | the key takes the value in memory, and the file holds the new settings |
| Settings.Config.VerifyPassword | WorkMonitor/src/work_monitor.py:486-488 | accepts exactly when the password's digest is the stored digest |
| Settings.Config.SetPassword | WorkMonitor/src/work_monitor.py:490-493 | the new digest is stored and saved, so the new password is accepted |
| Settings.Open | WorkMonitor/src/work_monitor.py:447-449 | fails exactly when loading raises; otherwise holds the loaded settings |
| Settings.SetThenGet | WorkMonitor/src/work_monitor.py:477-484 | a setting reads back as set, and every other setting is untouched |
| Settings.DefaultsDistinct | WorkMonitor/src/work_monitor.py:103-136 | no two defaults share a key |
| Settings.FreshDefaults | WorkMonitor/src/work_monitor.py:103-136 | without a configuration file every setting reads as `DEFAULT_CONFIG` lists it |
| Settings.DefaultSetting | WorkMonitor/src/work_monitor.py:103-136 | each default reads as it is listed |
| Retention.Cutoff | WorkMonitor/src/work_monitor.py:765 | the cutoff exists exactly when it is a valid date, and it is that many days earlier at the same time of day |
| Retention.SecondField | WorkMonitor/src/work_monitor.py:774 | the second field holds no '_' |
| Retention.MatchMonthDay | WorkMonitor/src/work_monitor.py:775 | a match gives a month in 1..12 and a day in 1..31 |
| Retention.ParseCompactDate | WorkMonitor/src/work_monitor.py:775 | a parsed date is a real calendar date |
| Retention.MatchMonthDayPad | WorkMonitor/src/work_monitor.py:775 | two digits of month then two of day read back as themselves |
| Retention.ShotDateOf | WorkMonitor/src/work_monitor.py:772-775 | a name the capture gives matches the glob and carries the date it was taken |
| Retention.StemField | WorkMonitor/src/work_monitor.py:774 | the second field of a capture's stem is its date digits |
| Retention.ShotExpiredIff | WorkMonitor/src/work_monitor.py:774-776 | a screenshot is deleted exactly when it was taken before the cutoff's day, or on that day when the cutoff is after midnight |
| Retention.CompactBacktracks | WorkMonitor/src/work_monitor.py:775 | `202412` reads as 2 January 2024 |
| Retention.LogExpiredIff | WorkMonitor/src/work_monitor.py:783-788 | a day's log is deleted exactly when its date is before the cutoff's date |
| Retention.CutoffDay | WorkMonitor/src/work_monitor.py:772-788 | after midnight the cutoff day's screenshots go while its log stays |
| Retention.SweepShots | WorkMonitor/src/work_monitor.py:772-780 | the kept screenshots are exactly the unexpired ones, and the count is the number of expired ones |
| Retention.SweepLogs | WorkMonitor/src/work_monitor.py:783-790 | the kept files are exactly the unexpired ones, and the count is the number of expired logs |
| Retention.KeptLogs | WorkMonitor/src/work_monitor.py:783-790 | removing the expired names leaves exactly the unexpired files |
| Retention.CleanupOld | WorkMonitor/src/work_monitor.py:762-792 | nothing is removed where the cutoff raises; otherwise both sweeps run and the result is the sum of their counts |
| Retention.SweepKeepsRecentLogs | WorkMonitor/src/work_monitor.py:783-790 | a day's log survives exactly when its day is on or after the cutoff's day |
| Overlay.ReadWorkData | WorkMonitor/src/overlay_widget.py:191-205 | no file or an unreadable file gives `{}`; a truthy decoded record is returned as it is |
| Overlay.ReadConfig | WorkMonitor/src/overlay_widget.py:178-189 | without a configuration file the overlay reads `{}` |
| Overlay.RealMinutes | WorkMonitor/src/overlay_widget.py:210 | the minutes are between 0 and 59 |
| Overlay.RealSeconds | WorkMonitor/src/overlay_widget.py:211 | the seconds are between 0 and 59 |
| Overlay.FormatClockFloor | WorkMonitor/src/overlay_widget.py:207-212 | a number of seconds is formatted as its whole part |
| Overlay.FloorParts | WorkMonitor/src/overlay_widget.py:209-211 | the hours, minutes and seconds Python computes from a real are those of its whole part |
| Overlay.FloorDiv | WorkMonitor/src/overlay_widget.py:209-211 | floor division of a real by a positive whole number is floor division of its whole part |
| Overlay.FloorShift | WorkMonitor/src/overlay_widget.py:210-211 | subtracting a whole number moves the whole part by it |
| Overlay.ReadClock | WorkMonitor/src/overlay_widget.py:212 | only text of the `h:mm:ss` shape reads back |
| Overlay.FormatClockReadsBack | WorkMonitor/src/overlay_widget.py:207-212 | `h:mm:ss` reads back as the seconds it was made from, negative ones included |
| Overlay.ClockParts | WorkMonitor/src/overlay_widget.py:209-211 | hours, minutes and seconds add back up to the seconds |
| Overlay.ReadClockOf | WorkMonitor/src/overlay_widget.py:212 | `h:mm:ss` with minutes and seconds in range reads back as `h*3600+m*60+s` |
| Overlay.HoursColourBands | WorkMonitor/src/overlay_widget.py:256-262 | the work time is blue from eight hours, green from four, orange below |
| Overlay.IdleMinutes | WorkMonitor/src/overlay_widget.py:265 | `int(idle_secs // 60)` is the floor of the whole seconds over 60 |
| Overlay.IdleText | WorkMonitor/src/overlay_widget.py:235 | the idle label starts with `IDLE` |
| Overlay.WorkText | WorkMonitor/src/overlay_widget.py:246 | the work label starts with `Work` |
| Overlay.TimeLabel | WorkMonitor/src/overlay_widget.py:226-262 | the label reads `IDLE` exactly when `current_idle_start` is not null; idle is red on the idle background; otherwise it exists exactly when the work counter is a number |
| Overlay.AntiCheatLabel | WorkMonitor/src/overlay_widget.py:276-293 | OFF in grey when disabled, pink when there are events, and otherwise defined exactly when the suspicious time compares |
| Overlay.AntiCheatCases | WorkMonitor/src/overlay_widget.py:276-293 | grey exactly when disabled, pink exactly when enabled with an event or more than 60 suspicious seconds, green otherwise |
| Overlay.Render | WorkMonitor/src/overlay_widget.py:214-293 | a refresh that completes had two dictionaries; its time label is idle exactly when the idle mark is set, the idle label is red then and orange otherwise, and the clock is `%H:%M` |
| Overlay.RenderFields | WorkMonitor/src/overlay_widget.py:219-293 | a record whose counters and lists read renders, showing those counters, the idle minutes, the screenshot count and the anti-cheat label |
| Overlay.MissingLogShowsZero | WorkMonitor/src/overlay_widget.py:191-205 | with no usable log for today the overlay shows `Work: 0:00:00` in orange, `Idle: 0m`, `Screenshots: 0`, and anti-cheat ON or OFF as configured |
| Overlay.ZeroClock | WorkMonitor/src/overlay_widget.py:207-212 | zero seconds format as `0:00:00` |
| Overlay.MonitorRecordShown | WorkMonitor/src/overlay_widget.py:214-273 | a record the monitor wrote always renders: idle exactly when it carries an idle mark, otherwise its work seconds as `h:mm:ss`, its idle minutes and its screenshot count |
| Overlay.MonitorFields | WorkMonitor/src/overlay_widget.py:219-227 | the counters, list lengths and idle mark of a monitor record read as the overlay expects |
| Overlay.MonitorCounters | WorkMonitor/src/overlay_widget.py:219-221 | the three counters of a monitor record read as numbers |
| Overlay.IntCounter | WorkMonitor/src/overlay_widget.py:219-221 | an integer member of a monitor record reads as its number |
| Overlay.MonitorLists | WorkMonitor/src/overlay_widget.py:222-227 | the list lengths and the idle mark of a monitor record read as the overlay expects |
| EmailReport.WeekNumbers | WorkMonitor/src/email_reports.py:27-35 | the week starts on a Monday and ends six days later; on a day other than Friday it holds today, and on a Friday it ends five days before today; it fails exactly where a step leaves the calendar |
| EmailReport.ReportWeek | WorkMonitor/src/email_reports.py:27-35 | the week's first date is a Monday and its last date is six days later |
| EmailReport.FridayWeek | WorkMonitor/src/email_reports.py:31-35 | on a Friday the week covered ends five days before today |
| EmailReport.OtherDayWeek | WorkMonitor/src/email_reports.py:27-29 | on any other day the week covered holds today |
| EmailReport.Productivity | WorkMonitor/src/email_reports.py:44-46 | the productivity times the work hours is 100 times the real work hours, and it is 0 without work |
| EmailReport.ProductivityRange | WorkMonitor/src/email_reports.py:44-46 | for a summary's hours the productivity is never negative, and at most 100 when no suspicious time is negative |
| EmailReport.PercentBounds | WorkMonitor/src/email_reports.py:46 | a nonnegative part of the work is between 0 and 100 percent |
| EmailReport.BarWidth | WorkMonitor/src/email_reports.py:127 | the bar is the productivity capped at 100 |
| EmailReport.InsightBands | WorkMonitor/src/email_reports.py:172-174 | the insight is excellent from 90, good from 70, and room for improvement below |
| EmailReport.Active | WorkMonitor/src/email_reports.py:50-51 | the rows are no more than the days |
| EmailReport.DailyRows | WorkMonitor/src/email_reports.py:49-61 | the loop keeps exactly the days with work, in order |
| EmailReport.ActiveMembers | WorkMonitor/src/email_reports.py:50-51 | a day has a row exactly when it is in the breakdown with positive work |
| EmailReport.ActiveCount | WorkMonitor/src/email_reports.py:50-51 | there is one row per day worked |
| EmailReport.WeeklyReport | WorkMonitor/src/email_reports.py:24-61 | the method builds the report the specification function describes |
| EmailReport.ReportShape | WorkMonitor/src/email_reports.py:24-127 | a report covers at most seven days, has one row per day worked, and its bar is between 0 and 100 |
| EmailReport.SendReport | WorkMonitor/src/email_reports.py:190-212 | a report is sent only when the gate is open and delivery succeeds |
| EmailReport.FreshConfigSendsNothing | WorkMonitor/src/email_reports.py:194-196 | without a configuration file nothing is sent |
| EmailReport.EmailOffByDefault | WorkMonitor/src/email_reports.py:194-196 | e-mail is off in the defaults |
| EmailReport.EmptyFieldClosesGate | WorkMonitor/src/email_reports.py:206-209 | an empty recipient, sender, server, user name or password closes the gate |
| ActivityLog.FreshLog | WorkMonitor/src/work_monitor.py:521-535 | the fresh record carries today's date, zero counters, empty lists and no open marks |
| ActivityLog.ListJson | WorkMonitor/src/work_monitor.py:545 | a list is stored one item per element |
| ActivityLog.ToJson | WorkMonitor/src/work_monitor.py:521-535 | the stored dictionary has the thirteen fields of the record |
| ActivityLog.ScreenshotRoundTrip | WorkMonitor/src/work_monitor.py:565-569 | a stored screenshot entry reads back as itself |
| ActivityLog.EventRoundTrip | WorkMonitor/src/work_monitor.py:577-581 | a stored suspicious event reads back as itself |
| ActivityLog.PeriodRoundTrip | WorkMonitor/src/work_monitor.py:611-615 | a stored idle period reads back as itself |
| ActivityLog.ListRoundTrip | WorkMonitor/src/work_monitor.py:545 | a list whose items survive storing survives storing |
| ActivityLog.ScreenshotsRoundTrip | WorkMonitor/src/work_monitor.py:565-569 | the screenshot list survives storing |
| ActivityLog.EventsRoundTrip | WorkMonitor/src/work_monitor.py:577-581 | the event list survives storing |
| ActivityLog.PeriodsRoundTrip | WorkMonitor/src/work_monitor.py:611-615 | the idle-period list survives storing |
| ActivityLog.LogKeysDistinct | WorkMonitor/src/work_monitor.py:521-535 | no two fields of a record share a key |
| ActivityLog.FieldLookup | WorkMonitor/src/work_monitor.py:521-535 | each field of a stored record reads as its value |
| ActivityLog.FieldIs | WorkMonitor/src/work_monitor.py:521-535 | a field reads as the value it was stored with |
| ActivityLog.IntFieldIs | WorkMonitor/src/work_monitor.py:521-535 | an integer field reads back as its integer |
| ActivityLog.ArrFieldIs | WorkMonitor/src/work_monitor.py:521-535 | a list field reads back as its items |
| ActivityLog.TimeFieldIs | WorkMonitor/src/work_monitor.py:529-534 | a time field that may be null reads back as it was |
| ActivityLog.CounterLookups | WorkMonitor/src/work_monitor.py:523-526 | the four time counters read back as the record's |
| ActivityLog.WorkLookup | WorkMonitor/src/work_monitor.py:523 | the work counter reads back |
| ActivityLog.IdleLookup | WorkMonitor/src/work_monitor.py:524 | the idle counter reads back |
| ActivityLog.OvertimeLookup | WorkMonitor/src/work_monitor.py:525 | the overtime counter reads back |
| ActivityLog.SuspiciousLookup | WorkMonitor/src/work_monitor.py:526 | the suspicious counter reads back |
| ActivityLog.CountLookups | WorkMonitor/src/work_monitor.py:522-532 | the date and the activity counts read back as the record's |
| ActivityLog.ListLookups | WorkMonitor/src/work_monitor.py:527-533 | the three lists read back as stored |
| ActivityLog.SessionLookups | WorkMonitor/src/work_monitor.py:528-534 | the session fields and the open idle mark read back as the record's |
| ActivityLog.FromJsonToJson | WorkMonitor/src/work_monitor.py:508-548 | every record survives being stored as a dictionary and read back |
| ActivityLog.Written | WorkMonitor/src/work_monitor.py:537-548 | saving adds today's file and no other |
| ActivityLog.LoadToday | WorkMonitor/src/work_monitor.py:508-535 | without today's file the fresh record is loaded |
| ActivityLog.LoadTodayUnreadable | WorkMonitor/src/work_monitor.py:511-517 | a truthy stored value that does not read as a record loads as the fresh record (where the program keeps the value; see Left out) |
| ActivityLog.LoadTodayWritten | WorkMonitor/src/work_monitor.py:508-548 | saving a record and loading the same day gives it back |
| ActivityLog.LoadTodayDecoded | WorkMonitor/src/work_monitor.py:511-517 | a day whose file decodes to a non-empty dictionary that reads as a record loads as that record |
| ActivityLog.LoadOtherDayWritten | WorkMonitor/src/work_monitor.py:503-548 | saving one day's file leaves what every other day loads unchanged |
| ActivityLog.NewDayReceivesOldRecord | WorkMonitor/src/work_monitor.py:499-548 | after midnight the first save stores the previous day's record, its date and counters, under the new day's name |
| ActivityLog.OpenedIdleMarks | WorkMonitor/src/work_monitor.py:591-596 | opening leaves a mark open, never overwrites an open mark, keeps the recorded periods, and keeps them sound |
| ActivityLog.ClosedIdleSound | WorkMonitor/src/work_monitor.py:598-617 | closing clears the mark and appends one period exactly when a mark was open for more than 60 seconds; earlier periods stay, and all stay sound |
| ActivityLog.ActivityLogger.PersistedReloads | WorkMonitor/src/work_monitor.py:508-548 | what is persisted is what loading today gives back |
| ActivityLog.ActivityLogger.constructor | WorkMonitor/src/work_monitor.py:499-501 | the logger starts with the record loaded for today |
| ActivityLog.ActivityLogger.Save | WorkMonitor/src/work_monitor.py:537-548 | the record is written under today's name and is unchanged |
| ActivityLog.ActivityLogger.AddWorkTime | WorkMonitor/src/work_monitor.py:550-554 | the work counter grows by the seconds and the record is saved |
| ActivityLog.ActivityLogger.AddIdleTime | WorkMonitor/src/work_monitor.py:556-560 | the idle counter grows by the seconds and the record is saved |
| ActivityLog.ActivityLogger.AddScreenshot | WorkMonitor/src/work_monitor.py:562-570 | the screenshot entry is appended and the record is saved |
| ActivityLog.ActivityLogger.AddSuspiciousTime | WorkMonitor/src/work_monitor.py:572-582 | the seconds always count; an event is appended only with a reason; the record is saved |
| ActivityLog.ActivityLogger.UpdateActivityCounts | WorkMonitor/src/work_monitor.py:584-589 | both counts are overwritten and the record is saved |
| ActivityLog.ActivityLogger.StartIdlePeriod | WorkMonitor/src/work_monitor.py:591-596 | a mark is set only when none is open, and the record is saved |
| ActivityLog.ActivityLogger.EndIdlePeriod | WorkMonitor/src/work_monitor.py:598-617 | a period over 60 seconds is appended, the mark is cleared, and the record is saved |
| ActivityLog.IdleMinutes | WorkMonitor/src/work_monitor.py:629 | each period's minutes are `int(d / 60)`, truncated toward zero, and the whole minutes of a non-negative duration |
| ActivityLog.GetSummary | WorkMonitor/src/work_monitor.py:723-739 | work, idle, overtime and suspicious hours are their seconds over 3600; the total is work plus overtime; real work is work less suspicious time, never below zero; the screenshot and event counts are the list lengths; the keyboard and window counts are the stored counters; one idle entry per period, each its minutes truncated toward zero |
| AntiCheat.Last | WorkMonitor/src/work_monitor.py:189 | `list(d)[-n:]` holds the last `n` elements, or all of them when there are fewer |
| AntiCheat.Push | WorkMonitor/src/work_monitor.py:145-147 | appending to a bounded deque keeps at most `maxlen` entries, puts the new one last and drops only the oldest |
| AntiCheat.Distances | WorkMonitor/src/work_monitor.py:192 | the distances are the steps' lengths, in order |
| AntiCheat.RoundHalfEven | WorkMonitor/src/work_monitor.py:211 | `.1%` rounds to the nearest tenth of a percent, a tie to the even one |
| AntiCheat.Percent1Tie | WorkMonitor/src/work_monitor.py:235 | a share of 0.8125 shows as `81.2%` |
| AntiCheat.JoinReasons | WorkMonitor/src/work_monitor.py:314 | no issues give `None`, and one issue is the reason as it is |
| AntiCheat.Join | WorkMonitor/src/work_monitor.py:314 | one issue joins to itself |
| AntiCheat.Reversals | WorkMonitor/src/work_monitor.py:225-226 | an axis reverses at most once per pair of consecutive steps |
| AntiCheat.XChanges | WorkMonitor/src/work_monitor.py:221 | there is one x change per step after the first |
| AntiCheat.YChanges | WorkMonitor/src/work_monitor.py:222 | there is one y change per step after the first |
| AntiCheat.ReversalRate | WorkMonitor/src/work_monitor.py:228-232 | the reversal rate is between 0 and 1 |
| AntiCheat.RatioBounds | WorkMonitor/src/work_monitor.py:232 | a count over a larger bound is between 0 and 1 |
| AntiCheat.Regularity | WorkMonitor/src/work_monitor.py:203-208 | the regularity is between 0 and 1 wherever the mean interval is positive |
| AntiCheat.DetectJitter | WorkMonitor/src/work_monitor.py:183-237 | a hit needs at least ten steps and a small average step; no hit is `(False, 0, "")`; the score is between 0 and 100 |
| AntiCheat.AlternatingReversals | WorkMonitor/src/work_monitor.py:225-226 | steps that alternate in direction reverse at every occasion |
| AntiCheat.StillReversals | WorkMonitor/src/work_monitor.py:225-226 | an axis that does not move never reverses |
| AntiCheat.JitterHitWhen | WorkMonitor/src/work_monitor.py:183-237 | the check fires exactly with ten steps, a small average over the last twenty, and either regularity above the bar or, with six recent steps, a reversal rate above 0.7 |
| AntiCheat.AlternatingRate | WorkMonitor/src/work_monitor.py:216-234 | alternating steps on both axes give a reversal rate of 1 |
| AntiCheat.OneAxisRate | WorkMonitor/src/work_monitor.py:216-234 | alternating steps on one axis with the other still give a rate of 0.5 |
| AntiCheat.BackAndForthFlagged | WorkMonitor/src/work_monitor.py:183-237 | a small back-and-forth jiggle on both axes is flagged once ten steps are recorded, whatever its timing |
| AntiCheat.OneAxisJiggleMissed | WorkMonitor/src/work_monitor.py:183-237 | a one-axis jiggle stays at a rate of 0.5 and escapes when its timing is irregular |
| AntiCheat.DetectNoKeyboard | WorkMonitor/src/work_monitor.py:239-249 | fires exactly when the keyboard is required and silent for longer than the interval |
| AntiCheat.DetectNoWindowChange | WorkMonitor/src/work_monitor.py:251-261 | fires exactly when window changes are required and the window has been the same for longer than the interval |
| AntiCheat.Score | WorkMonitor/src/work_monitor.py:291-312 | the score is between 0 and 100; a silent keyboard with an unchanged window always reaches 50; neither alone does without jitter; jitter alone reaches 50 only at a perfect score |
| AntiCheat.Issues | WorkMonitor/src/work_monitor.py:291-310 | there is one issue per check that fired |
| AntiCheat.AntiCheatDetector.constructor | WorkMonitor/src/work_monitor.py:142-162 | the detector starts with empty histories, zero counts, both clocks at now, no verdict and no events |
| AntiCheat.AntiCheatDetector.AddMovement | WorkMonitor/src/work_monitor.py:168-181 | nothing changes without a previous position; otherwise the step and its distance are pushed, and from the second step on so is its interval |
| AntiCheat.AntiCheatDetector.RecordKeyboardActivity | WorkMonitor/src/work_monitor.py:263-266 | the keyboard clock is now and the count grows by one |
| AntiCheat.AntiCheatDetector.CheckActiveWindow | WorkMonitor/src/work_monitor.py:268-284 | a readable title different from the last one is a change: it is remembered, the clock is now and the count grows; otherwise nothing changes |
| AntiCheat.AntiCheatDetector.Analyze | WorkMonitor/src/work_monitor.py:286-324 | disabled gives `(False, 0, "Anti-cheat disabled")` with no change; otherwise the score is the weighted checks capped at 100, cheating exactly from 50, the reasons joined, and an event is pushed exactly when cheating |
| AntiCheat.AntiCheatDetector.Conclude | WorkMonitor/src/work_monitor.py:312-324 | cheating exactly from 50; the verdict is kept; an event is pushed into a deque of at most 50 exactly when cheating |
| AntiCheat.AntiCheatDetector.GetStatus | WorkMonitor/src/work_monitor.py:326-335 | the status reports the verdict, the time since each clock and the number of events |
| AntiCheat.KeysToCheck | WorkMonitor/src/work_monitor.py:351 | the polled keys are 0x08..0x5A and 0x60..0x87, in increasing order |
| AntiCheat.RisingEdges | WorkMonitor/src/work_monitor.py:353-362 | at most one press is counted per polled key |
| AntiCheat.Recorded | WorkMonitor/src/work_monitor.py:364 | every polled key's state is remembered and no other key's changes |
| AntiCheat.KeyboardTracker.constructor | WorkMonitor/src/work_monitor.py:341-345 | the tracker starts with no states, no presses and activity at now |
| AntiCheat.KeyboardTracker.CheckActivity | WorkMonitor/src/work_monitor.py:347-366 | the count grows by the keys whose press bit rose, the tracker and the detector are marked active exactly when one did, every state is remembered, and the count is returned |
| AntiCheat.KeyboardTracker.PollKeys | WorkMonitor/src/work_monitor.py:353-364 | the loop over distinct keys counts exactly the rising press bits and remembers every state |
| AntiCheat.KeyboardTracker.PollKey | WorkMonitor/src/work_monitor.py:354-364 | a press bit that was not set before counts one press and marks activity; the state is remembered either way |
| AntiCheat.KeyboardTracker.IdleSeconds | WorkMonitor/src/work_monitor.py:371-373 | the idle time is the time since the last press |
| AntiCheat.PollStep | WorkMonitor/src/work_monitor.py:353-364 | one more distinct key adds its rising edge to the count and its state to the table |
| AntiCheat.NoRepeatCount | WorkMonitor/src/work_monitor.py:355-364 | polling the same states again counts nothing: a held key is counted once |
| AntiCheat.RisingEdgesAgree | WorkMonitor/src/work_monitor.py:355-358 | tables that agree on the polled keys count the same presses |
| AntiCheat.MouseTracker.constructor | WorkMonitor/src/work_monitor.py:382-388 | the tracker starts with no position, zero distance and real activity |
| AntiCheat.MouseTracker.HasMoved | WorkMonitor/src/work_monitor.py:396-422 | the first call records the position and reports movement; later calls report movement exactly when the position changed, and then push the step onto the movement and distance histories, its interval after the previous step onto the interval history, take a new readable title as a window change at now, add the distance and restart the idle clock; otherwise nothing changes; the keyboard clock and the verdict are never touched |
| AntiCheat.MouseTracker.IsRealActivity | WorkMonitor/src/work_monitor.py:424-431 | with detection off the activity is real and the detector unchanged; otherwise the score is `analyze`'s weighted score of its three checks on the histories and clocks, the reason their joined issues, an event logged exactly when cheating, and the activity real exactly when the score is below 50 |
| AntiCheat.MouseTracker.IdleSeconds | WorkMonitor/src/work_monitor.py:433-435 | the idle time is the time since the last move |
| Monitor.HoursPartition | WorkMonitor/src/work_monitor.py:1694-1711 | no moment is both office hours and overtime; from the start onwards each moment is one of the two; a start after the end leaves no office hours |
| Monitor.DefaultHours | WorkMonitor/src/work_monitor.py:1694-1711 | with the default settings office hours are 09:00:00 to 17:00:00, both included, and overtime is after 17:00:00 |
| Monitor.Credit | WorkMonitor/src/work_monitor.py:1814-1824 | time is credited exactly inside office hours: to work when working and real, to suspicious time when working and judged fake, to idle time otherwise |
| Monitor.CreditLogSome | WorkMonitor/src/work_monitor.py:1814-1831 | crediting a bucket and then copying the counts is the crediting half of a pass |
| Monitor.PassCredits | WorkMonitor/src/work_monitor.py:1814-1824 | only the named bucket grows, by the elapsed time; an event is logged only for suspicious time with a reason; overtime, the date and the sessions stay |
| Monitor.PassConserves | WorkMonitor/src/work_monitor.py:1814-1824 | inside office hours work, suspicious and idle time together grow by exactly the elapsed time, outside them not at all |
| Monitor.PassCounts | WorkMonitor/src/work_monitor.py:1826-1831 | the activity counts are the trackers' totals after a pass in office hours and untouched outside them |
| Monitor.PassIdle | WorkMonitor/src/work_monitor.py:1795-1801 | going idle opens a mark, coming back clears it, no edge leaves the idle record alone, and recorded periods stay sound |
| Monitor.PassScreenshots | WorkMonitor/src/work_monitor.py:1833-1840 | a pass appends the screenshot it took, and only that |
| Monitor.MonitorApp.constructor | WorkMonitor/src/work_monitor.py:1488-1505 | the app starts not working, not suspicious, with no screenshot taken and the check clock at now; the keyboard reports to the mouse's detector |
| Monitor.MonitorApp.TrackIdleEdge | WorkMonitor/src/work_monitor.py:1795-1801 | an idle period opens when work stops and closes when it resumes, and the file is written only then |
| Monitor.MonitorApp.AccountTime | WorkMonitor/src/work_monitor.py:1813-1831 | the elapsed time goes to its bucket and the counts are copied inside office hours; nothing is written outside them |
| Monitor.MonitorApp.MaybeScreenshot | WorkMonitor/src/work_monitor.py:1833-1840 | a screenshot is recorded while working in office hours once the interval has passed and the capture gave a file, and then the last screenshot time is now |
| Monitor.StepLength | WorkMonitor/src/work_monitor.py:413-416 | the step length is the non-negative root of the squared distance |
| Monitor.IntervalStdev | WorkMonitor/src/work_monitor.py:199-203 | from five intervals on, the standard deviation squared is the sample variance of the last ten |
| Monitor.MonitorApp.Sense | WorkMonitor/src/work_monitor.py:1773-1782 | the idle time is the shorter of the cursor's and the keyboard's idle times; a move pushes the step (its length by `sqrt`) and its interval onto the detector's histories and checks the window, and no move leaves them; a key press restarts the detector's keyboard clock |
| Monitor.MonitorApp.Judge | WorkMonitor/src/work_monitor.py:1803-1805 | the activity is real when detection is off, otherwise exactly when the score is below 50, the score, reason and event log being `analyze`'s on the histories with the stdev of the last ten intervals; the idle clock and window count are untouched |
| Monitor.MonitorApp.Decide | WorkMonitor/src/work_monitor.py:1788-1801 | working exactly when idle is under the threshold; the idle seconds are shown only when not working; the idle edge is recorded |
| Monitor.MonitorApp.Observe | WorkMonitor/src/work_monitor.py:1769-1811 | sensing, the working decision, the idle edge, the verdict and the warning screen, as `Sensed` states them, the verdict being the detector's score of its histories and clocks |
| Monitor.MonitorApp.Record | WorkMonitor/src/work_monitor.py:1813-1840 | the elapsed time is credited, the counts are copied and the due screenshot is taken |
| Monitor.MonitorApp.Tick | WorkMonitor/src/work_monitor.py:1765-1849 | one pass leaves the check clock at now and the day's record as `PassLog` of the old one, with the bucket `Credit` names and the screenshot `ShotTaken` names |
| Utf8.EncodeChar | WorkMonitor/src/work_monitor.py:72 | a character becomes one to four bytes, and one byte exactly when it is ASCII |
| Utf8.Encode | WorkMonitor/src/work_monitor.py:72 | encoding never shortens the text, and ASCII text keeps its length |

## Left out

- The clock, the cursor, key states, window titles, screen captures and SMTP delivery are parameters. Windows API failures are left out: `check_activity` returning 0 on `OSError`, and `check_active_window` on `AttributeError`, which the model gives as an unreadable title.
- Time is whole seconds (`int`), and the program's floats are exact reals. The program's `time.time()` readings are floats, so the model does not capture their sub-second rounding.
- The ISO timestamps stored in screenshot, event and idle-period entries are whole seconds here. The overlay's reading of `current_idle_start` is a parameter.
- `get_idle_periods`' `%I:%M:%S %p` text is not modelled; only its whole minutes are (`ActivityLog.IdleMinutes`).
- JSON text is replaced by a self-delimiting tagged serialiser that is injective and round-trips. `json.dumps` spacing, escapes and float text are not modelled, and neither is `json.loads` on text the program did not write.
- `math.sqrt` and `statistics.stdev` are parameters whose value a precondition pins down (`AntiCheat.StdevOf`, `Monitor.IsSqrt`). SHA-256 is a parameter of the password methods.
- Locks, threads, the `daemon` thread loop, `time.sleep`, the overlay's Tk widgets and its blinking dot are not modelled. So are the warning window's widgets (only whether it is shown is modelled), the HTML dashboard written after each pass, the HTML report text, `strftime("%B %d, %Y")` and the `schedule` library.
- The write-to-`.tmp`-then-rename save is one update of the directory map. `IOError` while saving or loading is not modelled.
- `OSError` from `unlink` in `cleanup_old` is not modelled: every expired file is removed. `glob` is matched case-sensitively.
- `MouseTracker` and `KeyboardTracker` always have a detector, as in the application, which always passes its configuration. The `if self.anticheat` branches for a missing detector are not modelled.
- The catch-all `except Exception` of `monitor_loop` is not modelled: a pass either completes, or is not defined where a precondition excludes it. The model does not capture a pass that stops half-way.
- Unicode digits accepted by `strptime` and `int()` are not modelled: dates are ASCII digits.
- The other API endpoints (screenshots, configuration, the dashboard) and the other desktop windows are outside this model.
- Monitor.MonitorApp.Tick: the file writes of a pass are stated by its steps (`TrackIdleEdge`, `Decide`, `AccountTime`, `MaybeScreenshot`), not by `Tick`'s own contract. That contract states the day's record and the clocks.
- Monitor.MonitorApp.Observe: states the record, `Sensed` and the verdict, with the score tied to the detector's histories and clocks. How this pass's cursor, keys and window change those histories is stated by `Sense`, which `Judge` leaves as they are, not repeated in `Observe`'s own contract.
- Monitor.MonitorApp.Record: states the record and the screenshot clock, not the file writes; those are stated by `AccountTime` and `MaybeScreenshot`.
- Monitor.MonitorApp.Sense: states the idle time, the detector's histories, window clock and keyboard clock. The mouse and keyboard trackers' own position, distance and key-state updates are stated by `HasMoved` and `CheckActivity`.
- Api.EntryOf / DayRange.IntField: a decimal counter in a day's log is read as an error (the range answers 500), where the program adds it to its totals as a float. The range totals, averages and `format_time` are modelled on integers only.
- ActivityLog.LoadToday: the day's record is typed. A truthy stored value that does not read as a record (a missing key, a decimal counter, a list) loads as the fresh record, where the program keeps that value as it is (`LoadTodayUnreadable`).
- ActivityLog.LoadTodayDecoded: covers only a stored dictionary that reads as a record, for the same reason.
- Overlay.Render: a truthy configuration that is not a dictionary gives None, with no label set. The program has already set the time, idle, clock and screenshot labels when `config.get` raises at `overlay_widget.py:276`.
- EmailReport.SendReport: states only that a report is sent when the gate is open and delivery succeeds. The converse needs the report to be built, which `ReportOf` states.

## Findings

| source | as written | input that shows it | evidently intended | confidence | as-written member | corrected member |
|---|---|---|---|---|---|---|
| api/main.py:360-368 | the `HTTPException(400)` raised for a start after the end is caught by `except Exception` and answered as a 500 whose detail is `400: Start date must be before end date` | `GET /api/activity/range?start=2024-01-02&end=2024-01-01` | a 400 with that detail | not executed | Api.ReversedRangeAsWritten | Api.RangeAnswerCases |
