# Daily activity loggers — a Dafny model

Three small polling scripts keep daily logs on a personal computer. The model covers the part they share: the per-flush update of a short table of daily records.

- `check_daily_traffic.py` logs network traffic. Each record holds the date, the raw interface counters last seen (the baseline), the month and day totals of bytes received and sent, and four display columns in GiB.
- `check_screen_status.py` logs screen time. It counts ten seconds of power-on time per tick, plus ten seconds of screen time when the display is on. A flush adds both counts to the `HH:MM:SS` fields of the last record.
- `check_keyboard_events.py` logs keystrokes. It counts presses per key label, with a `total` entry. A flush compares the in-memory counts with the day record written last time. If they dominate it, the difference is taken as the new presses. Otherwise the script assumes a restart emptied them, counts them all as new and rebases them onto the record. This is a guess: a restarted listener that has already seen more presses than the record holds is taken for the old one, and presses made between the last flush and a restart are lost either way. It then adds the new presses to an all-time `Total` record and writes both maps ordered by count.

Each script reads the last record or records of its log at a flush. It then either rewrites them (same day) or finalises the day record and starts a new one (new day).

Layout, one module per file:

- `basics.dfy` (`Basics`): the Python string operations the scripts rely on. These are `s[:n]`, `str.split`, `'\t'.join`, `readlines`, the whitespace `int()` skips, the `'{: >w}'` and `'{: <w}'` paddings, and a write over the start of a file without truncating it. It also holds the day-boundary flush gate that the traffic and keyboard loops share.
- `numerals.dfy` (`Numerals`): `str(n)` and Python 2's `int(s)`, and their round trip.
- `traffic.dfy` (`Traffic`): `_fmt_line`, record parsing, the rollover arithmetic, seeding, and the `TrafficMonitor` class, whose `Tick` is one pass of the polling loop.
- `screen.dfy` (`ScreenTime`): `secs_to_hms`, `hms_to_secs`, `to_midnight`, record lines, and the `ScreenMonitor` class.
- `keyboard.dfy` (`Keyboard`): `on_press`, `dict_gt`, `dict_sub`, `dict_add`, the reconciliation, ordering by count, and the `KeyboardMonitor` class.

The three loops become classes. Each class holds the log's lines and its accumulators as fields. Its `Tick` method is one iteration of `while True`, and its result says which way the iteration went: the gate was closed, the script would raise and stop, the tick was skipped, or the records were flushed. The clock, the local-time formatter `tts`, the `localtime` fields, the raw counters, the display state and the GiB formatter are all parameters.

Three details of the code that are easy to miss, all followed by the model:

- The traffic seed record holds integer zeros (`0`) in all eight total and display columns (`check_daily_traffic.py` line 80).
- The traffic and screen seeding writes over the start of the file without truncating it (`check_daily_traffic.py` lines 81-83).
- The new-day traffic record shows the display columns of the record it follows (`check_daily_traffic.py` line 125 reuses the `gibs` computed before the month reset).

## Model

| member | source | states |
|---|---|---|
| Basics.SameDaySameMonth | check_daily_traffic.py:115-116 | dates with the same `[:10]` prefix have the same `[:7]` prefix |
| Basics.FlushDue | check_daily_traffic.py:90-92 | the traffic and keyboard gate, due once the flush interval has passed or the day string of `now` differs from that of the previous tick, always opens on a change of month string |
| Basics.SplitJoin | check_daily_traffic.py:74 | splitting a tab-joined line gives back its fields when no field holds a tab |
| Basics.StripAround | check_daily_traffic.py:101 | `int()` ignores the whitespace around a numeral: stripping removes exactly the padding and the newline |
| Basics.OverwriteLines | check_daily_traffic.py:81-83 | two lines written over the start of an untruncated file read back as themselves, followed by the lines of the old text beyond them |
| Numerals.ParseInt | check_daily_traffic.py:101 | Python 2's `int()` never accepts a blank string. It skips whitespace around the numeral and between sign and digits. That the forms the scripts write are accepted is stated by `Numerals.ParseIntRoundTrip`, and the sign handling by `Numerals.SignedExamples` |
| Numerals.SignedExamples | check_daily_traffic.py:101 | `int("- 5")` is -5 and `int("+ 7")` is 7, while a lone sign and two numbers are rejected |
| Numerals.ParseIntRoundTrip | check_daily_traffic.py:73 | `int()` reads back `str(n)` for every integer `n`, whatever whitespace surrounds it |
| Traffic.FormatLine | check_daily_traffic.py:70-74 | the loop pads each word to its header's width, joins with tabs and ends the line, as `FormattedLine` defines |
| Traffic.FormattedLine | check_daily_traffic.py:70-74 | the text `_fmt_line` returns always ends in a newline |
| Traffic.FormattedFields | check_daily_traffic.py:70-74 | a formatted line splits on tabs into exactly the padded words, the newline on the last |
| Traffic.FormattedLineIsLine | check_daily_traffic.py:70-74 | a formatted line is one line of the file when no word holds a newline |
| Traffic.ParseFormatted | check_daily_traffic.py:99-101 | fields 1 to 6 of a formatted line parse to the integers written; field 0 is the date padded to 19 |
| Traffic.ParseRecord | check_daily_traffic.py:99-101 | a line parses only if it has at least seven tab-separated fields, and then its date is the first field |
| Traffic.RecordRoundTrip | check_daily_traffic.py:99-101 | a written record, with any tab-free display columns, reads back as itself with its date padded to 19 |
| Traffic.TotalsNeverDecrease | check_daily_traffic.py:107-112 | the month and day totals each grow by `max(new - old, 0)`, so they never decrease; the baseline becomes the new reading |
| Traffic.StaysNonNegative | check_daily_traffic.py:104-112 | non-negative records stay non-negative through a flush with positive readings |
| Traffic.Rollover | check_daily_traffic.py:107-125 | a flush writes two records on a day change and one otherwise, the last always dated now and holding the new raw readings |
| Traffic.SameDay | check_daily_traffic.py:114-120 | same day: one record, dated now, carrying the new baseline |
| Traffic.DayChange | check_daily_traffic.py:115-125 | day change: the old record keeps its date, and exactly one record is appended, dated now, with the new baseline and zero day totals |
| Traffic.MonthChange | check_daily_traffic.py:115-125 | a month change is a day change and zeroes the new record's month totals; a day-only change carries them over |
| Traffic.FlushReadBack | check_daily_traffic.py:99-125 | the next flush reads the last record this flush wrote, so no growth is lost between flushes |
| Traffic.UpdateRecords | check_daily_traffic.py:107-125 | the step-by-step update of the counters gives the records `Rollover` specifies |
| Traffic.FormatAll | check_daily_traffic.py:119-125 | the records of a flush are written one formatted line each, all with the same display columns |
| Traffic.Seeding | check_daily_traffic.py:76-83 | a log of fewer than two lines gets the header and one record of the current readings with zero totals; the record reads back as such |
| Traffic.SeedLine | check_daily_traffic.py:79-83 | the seed record is one line and parses to the readings with zero month and day totals |
| Traffic.SameDayScenario | check_daily_traffic.py:107-120 | a second reading on the same day adds its growth to both the month and the day totals of the one record |
| Traffic.TrafficMonitor.constructor | check_daily_traffic.py:76-85 | start-up seeds a short log and records the start time |
| Traffic.TrafficMonitor.Tick | check_daily_traffic.py:86-125 | the flush runs iff the interval has passed or the day string changed since the previous tick; it crashes on a missing or malformed last line; it skips non-positive readings after advancing `last_checked`; otherwise it replaces the last line by the rollover's lines and leaves earlier lines untouched |
| ScreenTime.HmsWidth | check_screen_status.py:34-37 | minutes and seconds are in 0 to 59 and two digits wide; the text is 8 characters iff below 100 hours |
| ScreenTime.SecsToHms | check_screen_status.py:34-37 | `secs_to_hms` text is at least eight characters, `HH:MM:SS` with the hours widening as needed |
| ScreenTime.HmsToSecs | check_screen_status.py:40-42 | `hms_to_secs` succeeds only on exactly three colon-separated fields |
| ScreenTime.HmsRoundTrip | check_screen_status.py:34-42 | `hms_to_secs(secs_to_hms(n)) == n` for every integer `n`, with any whitespace after it |
| ScreenTime.HmsTextRoundTrip | check_screen_status.py:34-42 | three formatted fields read back as `h*3600 + m*60 + s` |
| ScreenTime.ParseTwoDigits | check_screen_status.py:37-41 | `int()` reads back a `'{:02d}'` field, zero padding included |
| ScreenTime.MidnightBounds | check_screen_status.py:49-73 | without DST and with an offset under a day, `to_midnight` gives a time congruent to the offset, between 0 and 86400 seconds before `ts` inclusive |
| ScreenTime.ToMidnight | check_screen_status.py:49-73 | `to_midnight` as written lands on a time congruent to the offset, shifted by the DST hour after September |
| ScreenTime.ToMidnightFixed | check_screen_status.py:49-73 | the corrected version (`>=` at line 65) lands on a time congruent to the offset, shifted by the DST hour after September |
| ScreenTime.MidnightFixedIsDayStart | check_screen_status.py:49-73 | the corrected `to_midnight` is the local day number times 86400 plus the offset, less an hour in the last quarter under DST |
| ScreenTime.MidnightFixedBounds | check_screen_status.py:49-73 | without DST the corrected version lies strictly less than a day before `ts` |
| ScreenTime.SameMidnightSameDay | check_screen_status.py:49-73 | two times whose local times agree on the DST flag, and on whether the October-to-December hour is subtracted, have the same corrected midnight iff they fall on the same local day |
| ScreenTime.MidnightOffByOne | check_screen_status.py:65-66 | at the first second of a local day east of UTC, `to_midnight` as written returns the previous midnight, as does the tick before it |
| ScreenTime.MidnightVersionsAgree | check_screen_status.py:62-68 | away from that boundary the two versions agree |
| ScreenTime.RecordRoundTrip | check_screen_status.py:103-118 | a written record line reads back as the same record |
| ScreenTime.ParseRecord | check_screen_status.py:104-107 | a record line parses only if it has exactly three tab-separated fields, and then its date is the first |
| ScreenTime.RecordIsLine | check_screen_status.py:115-118 | a record line is one line of the file |
| ScreenTime.FlushAccumulates | check_screen_status.py:106-118 | the counts are added to the last totals; same day: one record dated now; day change: the old date is kept and one zero record dated now follows |
| ScreenTime.FlushRecords | check_screen_status.py:106-118 | a flush writes one or two records, the last always dated now |
| ScreenTime.ZeroLine | check_screen_status.py:118 | the appended line is `now_date\t00:00:00\t00:00:00\n` |
| ScreenTime.FlushReadBack | check_screen_status.py:103-118 | the next flush reads the last record this flush wrote |
| ScreenTime.Seeding | check_screen_status.py:78-83 | a short log gets the header and a zero record dated at start-up; a longer log is unchanged |
| ScreenTime.GateOpen | check_screen_status.py:98-99 | the corrected gate (`to_midnight` with `>=`): while the DST flag, and whether the October-to-December hour is subtracted, stay the same across the tick (so at the first tick of a month too, unless DST is on and the tick enters or leaves October to December), it opens iff screen time is pending and the flush interval has passed, or a new local day has begun |
| ScreenTime.ScreenMonitor.constructor | check_screen_status.py:78-87 | start-up seeds a short log and starts both counts at zero |
| ScreenTime.ScreenMonitor.Count | check_screen_status.py:90-95 | power time grows by 10 each tick and screen time by 10 only when the display is on, keeping `0 <= screen <= power`, both multiples of 10 |
| ScreenTime.ScreenMonitor.WriteFlush | check_screen_status.py:113-118 | the last line is replaced in place, and on a new day one line is appended |
| ScreenTime.ScreenMonitor.Flush | check_screen_status.py:101-118 | a flush crashes on a missing or malformed last line; otherwise it rewrites the lines with the new totals and resets both counts |
| ScreenTime.ScreenMonitor.Tick | check_screen_status.py:89-118 | counting, then the gate; `last_checked` advances iff the gate opens; the lines and counts change only on a flush |
| Keyboard.PressCounts | check_keyboard_events.py:32-35 | a press raises the key's count and `total` by exactly one each, creating them at zero, and leaves every other count alone |
| Keyboard.Press | check_keyboard_events.py:32-35 | after a press the map holds the old keys plus the key and `total`; `total` goes up by one, or by two when the key is itself labelled `total` |
| Keyboard.PressKeepsPositive | check_keyboard_events.py:32-35 | presses keep every count positive |
| Keyboard.PressKeepsBalance | check_keyboard_events.py:32-35 | if `total` equals the sum of the other counts before a press, it still does after |
| Keyboard.DictGt | check_keyboard_events.py:49-53 | the scan returns true iff every key of `d2` is in `d1` with at least its count |
| Keyboard.DominatesEmptyAndSelf | check_keyboard_events.py:49-53 | every map passes `dict_gt` against the empty map and against itself |
| Keyboard.DictSub | check_keyboard_events.py:43-44 | the difference has exactly the keys of `d1` |
| Keyboard.DictAddGet | check_keyboard_events.py:46-47 | `Counter` addition: a key is present iff its summed count is positive, and then holds that sum |
| Keyboard.DictAdd | check_keyboard_events.py:46-47 | a `Counter` sum holds no count below one and no key that neither map has |
| Keyboard.DictAddCommutes | check_keyboard_events.py:46-47 | `dict_add` is commutative |
| Keyboard.SubNonNegative | check_keyboard_events.py:43-44 | when `d1` dominates `d2` and has no negative count, the difference has none |
| Keyboard.SubAddInverse | check_keyboard_events.py:43-47 | when `d1` dominates `d2`, adding `d2` back to the difference gives `d1` restricted to positive counts |
| Keyboard.TotalAccumulates | check_keyboard_events.py:88-93 | the totals grow key by key by exactly the new presses, which are never negative |
| Keyboard.Reconcile | check_keyboard_events.py:88-93 | in both branches the new presses cover exactly the keys held in memory |
| Keyboard.ReconciledDominates | check_keyboard_events.py:88-92 | after reconciliation the in-memory map dominates the day record it came from |
| Keyboard.RebootRebases | check_keyboard_events.py:90-93 | when the map does not dominate the day record, every count in memory is counted as new, and the map becomes the day record plus them |
| Keyboard.RestartUndercounts | check_keyboard_events.py:88-89 | domination only guesses that no restart happened: a restarted map `{a: 5, total: 5}` dominates the record `{a: 1, total: 1}`, and only four of its five presses are counted |
| Keyboard.NoDoubleCounting | check_keyboard_events.py:88-93 | reconciling with the map just written, with no press since, leaves positive totals unchanged |
| Keyboard.ToMap | check_keyboard_events.py:85-86 | reading a serialised map back has exactly the keys listed |
| Keyboard.EntriesOfMap | check_keyboard_events.py:95-98 | distinct-key entries list their map exactly: an entry is listed iff the map holds it |
| Keyboard.EntryCount | check_keyboard_events.py:95-98 | distinct-key entries hold one entry per key, so together with `EntriesOfMap` a serialisation is a permutation of the map's items |
| Keyboard.NonIncreasingOrdered | check_keyboard_events.py:95-98 | in a serialisation any earlier entry has a count at least that of any later one |
| Keyboard.InsertKeeps | check_keyboard_events.py:95-98 | inserting by count keeps the entries distinct and ordered, and adds exactly that entry |
| Keyboard.SortByCount | check_keyboard_events.py:95-98 | the entries of the map, once each, by non-increasing count |
| Keyboard.FlushReadBack | check_keyboard_events.py:83-107 | the next flush reads back the totals and the day map under the current date, or the empty map on a new day |
| Keyboard.ReadLast | check_keyboard_events.py:83-86 | a flush reads only a log of at least two lines whose last two are records, never the header |
| Keyboard.SeedingReadsEmpty | check_keyboard_events.py:61-67 | a seeded log reads as an empty day and empty totals |
| Keyboard.KeyboardMonitor.constructor | check_keyboard_events.py:61-69 | start-up seeds a short log, with no press counted |
| Keyboard.KeyboardMonitor.OnPress | check_keyboard_events.py:25-35 | the callback's in-place updates give `Press` and keep every count positive |
| Keyboard.KeyboardMonitor.ReconcileCounts | check_keyboard_events.py:88-93 | `dict_gt` chooses between the difference and the reboot rebase, and the totals get the new presses |
| Keyboard.KeyboardMonitor.WriteRecords | check_keyboard_events.py:95-109 | same day: the last two lines become the day map dated now and the totals; new day: the day record keeps its date, an empty record dated now follows, the totals come last, and the map is emptied |
| Keyboard.KeyboardMonitor.Flush | check_keyboard_events.py:80-109 | a flush crashes on missing or malformed last two lines; otherwise it reconciles and rewrites |
| Keyboard.KeyboardMonitor.Tick | check_keyboard_events.py:70-109 | the day-boundary and interval gate, `last_checked` advanced iff it opens, then the flush |

## Findings

| source | as written | input that shows it | evidently intended | confidence | as-written member | corrected member |
|---|---|---|---|---|---|---|
| check_screen_status.py:65 | `secs_since_midnight > SECS_PER_DAY` moves to the next midnight only past a full day | `ts` 82800 and `timezone` -3600 (00:00:00 in UTC+1, no DST): the result is -3600, the previous midnight, as it is for the tick at 82790, so the day change is missed at that tick | `>=`: a time exactly a day past the computed midnight belongs to the next day, and the result is 82800 | not executed | ScreenTime.MidnightOffByOne | ScreenTime.MidnightFixedIsDayStart |

`ScreenTime.ToMidnight` models the code as written. `ScreenTime.ToMidnightFixed` is the corrected version, and the flush gate (`ScreenTime.GateOpen`) uses it. West of UTC the two agree everywhere (`ScreenTime.MidnightVersionsAgree`).

## Left out

- Reading the counters (`ifconfig`/`netstat` and their regular expressions) and the display state (`ioreg`) are left out. The readings are parameters of `Tick`: integers `rx1`, `tx1` and a boolean `displayOn`.
- The clock is left out (`time.time`, `time.sleep`, `localtime`, `strftime`, `time.timezone`). Timestamps are integers. `tts` and the local-time fields are function parameters, and the offset is an integer. Fractional timestamps and the `int()` truncation at the end of `to_midnight` are not modelled.
- `to_midnight` is modelled with `use_dst` on, the only way the script calls it.
- File I/O is left out. The traffic and screen logs are the lines `readlines` returns, and each flush rewrites all of them. The truncation, and the bare `except: return` around the traffic write, are not modelled.
- The keyboard log is held as structured lines: the header, or a tag with a sequence of entries. JSON text encoding is not modelled. `json.loads` is modelled as `Keyboard.ToMap`, where a later duplicate key wins, and `json.dumps` of the ordered map as the entry sequence.
- The pynput listener thread is left out, and so is the data race on the global `keymap`. Presses are sequential calls of `OnPress`.
- Key-object normalisation (`key.char`, the `AttributeError` path) is left out. `OnPress` takes the label string.
- Keyboard.SortByCount: the order among entries of equal count is not fixed. Python's stable sort keeps the dictionary's iteration order there, and the model leaves that order open.
- The GiB display columns are computed by a function parameter `gib`, because floating-point formatting is not modelled. The traffic parser never reads them.
- Traffic.TrafficMonitor.Tick: the raw readings arrive as integers. The `int()` conversion of the command output, and its failure, are not modelled.
- Traffic.TrafficMonitor.constructor: the seed record is written with the readings as integers (`str(n)`). The script writes the raw strings that `get_network_bytes` returns, unconverted (`check_daily_traffic.py` lines 79-80). Leading zeros, and an empty match of the Linux pattern (a seed field that the next flush's `int()` rejects), are not carried over.
- Restarts of the keyboard script are not modelled. The presses lost when a restart empties the map are outside the model; only the reconciliation that follows is modelled.
- The loop stopping for good after a crash is not enforced. `Tick` reports `Crashed` and leaves the lines (and the keyboard map) unchanged, but `last_checked` has already advanced, and the screen counts include the tick. Callers are expected to stop.
- ScreenTime.ScreenMonitor.Tick: the gate uses the corrected midnight (`ScreenTime.ToMidnightFixed`), not the code as written. The two differ only at the first second of a local day east of UTC (see Findings).
