/** The daily screen-time log: one line per day holding the date, the time the display
    was on and the time the machine was on, both as `HH:MM:SS`. The poller counts ten
    seconds of power-on time per tick, and ten of screen time when the display is on;
    a flush adds both counts to the last line, then rewrites it (same day) or finalises
    it and appends a zeroed line (new day). */
module ScreenTime {
  import opened Basics
  import opened Numerals

  /** Seconds between polls, and between flushes within one day. */
  const Interval: int := 10
  const FlushInterval: int := 600
  const SecsPerDay: int := 86400

  // ---------------------------------------------------------------------------------
  // `HH:MM:SS` fields

  /** `'{:02d}'.format(n)`: at least two characters, zero-padded after any sign. */
  function TwoDigits(n: int): (r: string)
    ensures |r| >= 2
  {
    if 0 <= n < 10 then "0" + IntToString(n)
    else
      NumeralWidth(n);
      IntToString(n)
  }

  /** `secs_to_hms`: hours, minutes and seconds by floor division. */
  function SecsToHms(n: int): (r: string)
    ensures |r| >= 8
  {
    var h, r := n / 3600, n % 3600;
    HmsText(h, r / 60, r % 60)
  }

  /** The `'{:02d}:{:02d}:{:02d}'` format of `secs_to_hms`. */
  function HmsText(h: int, m: int, s: int): string
  {
    TwoDigits(h) + ":" + TwoDigits(m) + ":" + TwoDigits(s)
  }

  /** `hms_to_secs`: exactly three colon-separated fields, each through `int()`; any
      other shape makes the script raise, which is `None` here. */
  function HmsToSecs(hms: string): (r: Option<int>)
    ensures r.Some? ==> |Split(hms, ':')| == 3
  {
    var parts := Split(hms, ':');
    if |parts| != 3 then None
    else
      var h, m, s := ParseInt(parts[0]), ParseInt(parts[1]), ParseInt(parts[2]);
      if h.Some? && m.Some? && s.Some? then Some(h.value * 3600 + m.value * 60 + s.value)
      else None
  }

  /** A number written without a sign has one digit iff it is below 10; a negative one
      has a sign and at least one digit. */
  lemma NumeralWidth(n: int)
    ensures |IntToString(n)| == 1 <==> 0 <= n < 10
  {
  }

  lemma {:induction false} NatToStringWidth(n: nat)
    ensures |NatToString(n)| == 2 <==> 10 <= n < 100
  {
    if n >= 10 {
      assert |NatToString(n)| == |NatToString(n / 10)| + 1;
    }
  }

  /** The minute and second fields are always two digits for values 0 to 59, and the
      hour field is two digits exactly while the count stays below 100 hours. */
  lemma HmsWidth(n: int)
    requires n >= 0
    ensures var h, r := n / 3600, n % 3600;
      && 0 <= r / 60 < 60 && 0 <= r % 60 < 60
      && |TwoDigits(r / 60)| == 2 && |TwoDigits(r % 60)| == 2
      && (|SecsToHms(n)| == 8 <==> n < 360000)
  {
    var h, r := n / 3600, n % 3600;
    NatToStringWidth(r / 60);
    NatToStringWidth(r % 60);
    NatToStringWidth(h);
  }

  lemma {:induction false} DigitsValueLeadingZero(s: string)
    requires AllDigits(s)
    ensures AllDigits("0" + s) && DigitsValue("0" + s) == DigitsValue(s)
    decreases |s|
  {
    if s != [] {
      var t := "0" + s;
      assert t[..|t| - 1] == "0" + s[..|s| - 1];
      DigitsValueLeadingZero(s[..|s| - 1]);
    }
  }

  /** `int()` reads a two-digit field back, whatever whitespace follows it. */
  lemma ParseTwoDigits(n: int, post: string)
    requires AllSpace(post)
    ensures ParseInt(TwoDigits(n) + post) == Some(n)
  {
    if 0 <= n < 10 {
      var d := IntToString(n);
      var t := TwoDigits(n);
      StripAround("", t, post);
      assert "" + t + post == t + post;
      assert t[0] == '0';
      DigitsValueLeadingZero(d);
      DigitsValueOfNatToString(n);
      assert ParseNat(t) == Some(n);
      assert Strip(t + post) == t && t[0] != '-' && t[0] != '+';
    } else {
      ParseIntRoundTrip(n, "", post);
      assert "" + IntToString(n) + post == TwoDigits(n) + post;
    }
  }

  lemma TwoDigitsAvoid(n: int, c: char)
    requires c != '-' && !IsDigit(c)
    ensures c !in TwoDigits(n)
  {
    NumeralChars(n);
  }

  /** `hms_to_secs(secs_to_hms(n)) == n` for every count of seconds, negative ones
      included (floor division keeps minutes and seconds in 0 to 59), whatever
      whitespace follows the field (the line's newline). */
  lemma HmsRoundTrip(n: int, post: string)
    requires AllSpace(post)
    ensures HmsToSecs(SecsToHms(n) + post) == Some(n)
  {
    var h, r := n / 3600, n % 3600;
    HmsArithmetic(n, h, r / 60, r % 60);
    HmsTextRoundTrip(h, r / 60, r % 60, post, n);
  }

  /** `hms_to_secs` reads each of the three fields back. */
  lemma HmsTextRoundTrip(h: int, m: int, s: int, post: string, v: int)
    requires AllSpace(post) && v == h * 3600 + m * 60 + s
    ensures HmsToSecs(HmsText(h, m, s) + post) == Some(v)
  {
    TwoDigitsField(h, "");
    TwoDigitsField(m, "");
    TwoDigitsField(s, post);
    HmsFields(HmsText(h, m, s) + post, TwoDigits(h), TwoDigits(m), TwoDigits(s), post, h, m, s, v);
  }

  /** A two-digit field, with any whitespace after it, holds no colon and reads back. */
  lemma TwoDigitsField(n: int, post: string)
    requires AllSpace(post)
    ensures ':' !in TwoDigits(n) + post
    ensures ParseInt(TwoDigits(n) + post) == Some(n)
    ensures post == [] ==> ParseInt(TwoDigits(n)) == Some(n)
  {
    TwoDigitsAvoid(n, ':');
    SpacesAvoid(post, ':');
    ParseTwoDigits(n, post);
    assert TwoDigits(n) + [] == TwoDigits(n);
  }

  /** Three colon-free fields that `int()` accepts make a time `hms_to_secs` reads. */
  lemma HmsFields(t: string, a: string, b: string, c: string, post: string, h: int, m: int, s: int, v: int)
    requires t == a + ":" + b + ":" + c + post
    requires ':' !in a && ':' !in b && ':' !in c + post
    requires ParseInt(a) == Some(h) && ParseInt(b) == Some(m) && ParseInt(c + post) == Some(s)
    requires v == h * 3600 + m * 60 + s
    ensures HmsToSecs(t) == Some(v)
  {
    assert t == a + ":" + b + ":" + (c + post);
    SplitThree(a, b, c + post);
  }

  /** Three colon-free fields joined by colons split back into those three. */
  lemma SplitThree(a: string, b: string, c: string)
    requires ':' !in a && ':' !in b && ':' !in c
    ensures Split(a + ":" + b + ":" + c, ':') == [a, b, c]
  {
    var parts := [a, b, c];
    assert NoneContains(parts, ':') by {
      assert parts[0] == a && parts[1] == b && parts[2] == c;
    }
    Join3(a, b, c, ':');
    SplitJoin(parts, ':');
  }

  lemma HmsArithmetic(n: int, h: int, m: int, s: int)
    requires h == n / 3600 && m == (n % 3600) / 60 && s == (n % 3600) % 60
    ensures h * 3600 + m * 60 + s == n
  {
  }

  // ---------------------------------------------------------------------------------
  // Local midnight

  /** The fields of `time.localtime(ts)` that `to_midnight` reads: the DST flag and the
      month (1 to 12). */
  datatype LocalTime = LocalTime(isDst: bool, mon: int)

  /** `to_midnight(ts, timezone)` as written, with DST handling on; `timezone` is the
      number of seconds west of UTC. */
  function ToMidnight(ts: int, timezone: int, lt: LocalTime): (r: int)
    ensures (r + (if lt.isDst && lt.mon > 9 then 3600 else 0) - timezone) % SecsPerDay == 0
  {
    var t := if lt.isDst then ts + 3600 else ts;
    var sinceMidnight := t % SecsPerDay - timezone;
    var midnight := t - sinceMidnight;
    var midnight' :=
      if sinceMidnight > SecsPerDay then midnight + SecsPerDay
      else if sinceMidnight < 0 then midnight - SecsPerDay
      else midnight;
    if lt.isDst && lt.mon > 9 then midnight' - 3600 else midnight'
  }

  /** The same with the boundary case fixed: a time `SecsPerDay` seconds past the
      computed midnight is the next midnight. */
  function ToMidnightFixed(ts: int, timezone: int, lt: LocalTime): (r: int)
    ensures (r + (if lt.isDst && lt.mon > 9 then 3600 else 0) - timezone) % SecsPerDay == 0
  {
    var t := if lt.isDst then ts + 3600 else ts;
    var sinceMidnight := t % SecsPerDay - timezone;
    var midnight := t - sinceMidnight;
    var midnight' :=
      if sinceMidnight >= SecsPerDay then midnight + SecsPerDay
      else if sinceMidnight < 0 then midnight - SecsPerDay
      else midnight;
    if lt.isDst && lt.mon > 9 then midnight' - 3600 else midnight'
  }

  /** The local day number of `ts`: whole days since the epoch in local time. */
  function LocalDay(ts: int, timezone: int, lt: LocalTime): int
  {
    ((if lt.isDst then ts + 3600 else ts) - timezone) / SecsPerDay
  }

  /** Outside DST, `to_midnight` as written lands on a time congruent to the timezone
      offset, at most one day before `ts` — one day before inclusive, which is where it
      goes wrong. */
  lemma MidnightBounds(ts: int, timezone: int, lt: LocalTime)
    requires !lt.isDst && -SecsPerDay < timezone < SecsPerDay
    ensures var r := ToMidnight(ts, timezone, lt);
      0 <= ts - r <= SecsPerDay && (r - timezone) % SecsPerDay == 0
  {
  }

  /** The fixed version is the start of the local day: the local day number times a
      day, shifted by the timezone (and by the DST hour in the last quarter). */
  lemma MidnightFixedIsDayStart(ts: int, timezone: int, lt: LocalTime)
    requires -SecsPerDay < timezone <= SecsPerDay
    ensures ToMidnightFixed(ts, timezone, lt)
         == LocalDay(ts, timezone, lt) * SecsPerDay + timezone
            - (if lt.isDst && lt.mon > 9 then 3600 else 0)
  {
    var t := if lt.isDst then ts + 3600 else ts;
    var q, since := t / SecsPerDay, t % SecsPerDay - timezone;
    assert t - timezone == q * SecsPerDay + since;
    if since >= SecsPerDay {
      FloorDivision(t - timezone, q + 1);
    } else if since < 0 {
      FloorDivision(t - timezone, q - 1);
    } else {
      FloorDivision(t - timezone, q);
    }
  }

  lemma FloorDivision(x: int, q: int)
    requires q * SecsPerDay <= x < q * SecsPerDay + SecsPerDay
    ensures x / SecsPerDay == q
  {
  }

  /** Outside DST the fixed version lands strictly less than a day before `ts`. */
  lemma MidnightFixedBounds(ts: int, timezone: int, lt: LocalTime)
    requires !lt.isDst && -SecsPerDay < timezone < SecsPerDay
    ensures var r := ToMidnightFixed(ts, timezone, lt);
      0 <= ts - r < SecsPerDay && (r - timezone) % SecsPerDay == 0
  {
    MidnightFixedIsDayStart(ts, timezone, lt);
  }

  /** Two times whose local-time readings agree on the DST flag, and on whether the
      October-to-December hour is subtracted, have the same fixed midnight iff they
      fall on the same local day. */
  lemma SameMidnightSameDay(a: int, b: int, timezone: int, la: LocalTime, lb: LocalTime)
    requires -SecsPerDay < timezone <= SecsPerDay
    requires la.isDst == lb.isDst && (la.isDst && la.mon > 9) == (lb.isDst && lb.mon > 9)
    ensures ToMidnightFixed(a, timezone, la) == ToMidnightFixed(b, timezone, lb)
        <==> LocalDay(a, timezone, la) == LocalDay(b, timezone, lb)
  {
    MidnightFixedIsDayStart(a, timezone, la);
    MidnightFixedIsDayStart(b, timezone, lb);
  }

  /** As written, at the very first second of a local day east of UTC the previous
      midnight comes back: at 00:00:00 in UTC+1 (`ts` 82800, `timezone` -3600) the
      result is -3600, the midnight before, where 82800 is meant. The tick ten seconds
      earlier maps to the same value, so the day change is not seen at that tick. */
  lemma MidnightOffByOne()
    ensures ToMidnight(82800, -3600, LocalTime(false, 1)) == -3600
    ensures ToMidnightFixed(82800, -3600, LocalTime(false, 1)) == 82800
    ensures LocalDay(82800, -3600, LocalTime(false, 1)) == 1
    ensures LocalDay(82790, -3600, LocalTime(false, 1)) == 0
    ensures ToMidnight(82790, -3600, LocalTime(false, 1)) == -3600
  {
  }

  /** Away from that boundary the two versions agree; in particular they always agree
      west of UTC. */
  lemma MidnightVersionsAgree(ts: int, timezone: int, lt: LocalTime)
    requires (if lt.isDst then ts + 3600 else ts) % SecsPerDay - timezone != SecsPerDay
    ensures ToMidnight(ts, timezone, lt) == ToMidnightFixed(ts, timezone, lt)
  {
  }

  // ---------------------------------------------------------------------------------
  // Record lines

  /** A line of the log: the date string and the two totals in seconds. */
  datatype ScreenRecord = ScreenRecord(date: string, screen: int, power: int)

  /** The text of a record line. */
  function RecordLine(r: ScreenRecord): string
  {
    r.date + "\t" + SecsToHms(r.screen) + "\t" + SecsToHms(r.power) + "\n"
  }

  function RecordLines(rs: seq<ScreenRecord>): (ls: seq<string>)
    ensures |ls| == |rs|
  {
    if rs == [] then [] else [RecordLine(rs[0])] + RecordLines(rs[1..])
  }

  lemma RecordLinesOne(r: ScreenRecord)
    ensures RecordLines([r]) == [RecordLine(r)]
  {
    assert [r][1..] == [];
  }

  lemma RecordLinesTwo(r: ScreenRecord, q: ScreenRecord)
    ensures RecordLines([r, q]) == [RecordLine(r), RecordLine(q)]
  {
    assert [r, q][1..] == [q];
    RecordLinesOne(q);
  }

  /** Reading a record line: exactly three tab-separated fields, the last two through
      `hms_to_secs`; anything else makes the script raise, which is `None` here. */
  function ParseRecord(line: string): (r: Option<ScreenRecord>)
    ensures r.Some? ==> |Split(line, '\t')| == 3 && r.value.date == Split(line, '\t')[0]
  {
    var segs := Split(line, '\t');
    if |segs| != 3 then None
    else
      var screen, power := HmsToSecs(segs[1]), HmsToSecs(segs[2]);
      if screen.Some? && power.Some? then Some(ScreenRecord(segs[0], screen.value, power.value))
      else None
  }

  /** The record a flush reads: the last line, if there is one and it parses. */
  function LastRecord(lines: seq<string>): Option<ScreenRecord>
  {
    if lines == [] then None else ParseRecord(lines[|lines| - 1])
  }

  lemma HmsAvoids(n: int, c: char)
    requires c != '-' && c != ':' && !IsDigit(c)
    ensures c !in SecsToHms(n)
  {
    var h, r := n / 3600, n % 3600;
    TwoDigitsAvoid(h, c);
    TwoDigitsAvoid(r / 60, c);
    TwoDigitsAvoid(r % 60, c);
  }

  /** A written record reads back unchanged, as long as its date holds no tab. */
  lemma {:induction false} RecordRoundTrip(r: ScreenRecord)
    requires '\t' !in r.date
    ensures ParseRecord(RecordLine(r)) == Some(r)
  {
    var a, b := SecsToHms(r.screen), SecsToHms(r.power);
    HmsAvoids(r.screen, '\t');
    HmsAvoids(r.power, '\t');
    var fields := [r.date, a, b + "\n"];
    Join3(r.date, a, b + "\n", '\t');
    assert Join(fields, '\t') == RecordLine(r);
    SplitJoin(fields, '\t');
    assert a + "" == a;
    HmsRoundTrip(r.screen, "");
    HmsRoundTrip(r.power, "\n");
  }

  /** A record line is one line of the file when its date holds no newline. */
  lemma RecordIsLine(r: ScreenRecord)
    requires '\n' !in r.date
    ensures IsLine(RecordLine(r))
  {
    HmsAvoids(r.screen, '\n');
    HmsAvoids(r.power, '\n');
    var l := RecordLine(r);
    assert l[..|l| - 1] == r.date + "\t" + SecsToHms(r.screen) + "\t" + SecsToHms(r.power);
  }

  // ---------------------------------------------------------------------------------
  // The flush

  /** The records a flush writes in place of `last`, given the screen and power seconds
      counted since the previous flush and the current date string. */
  function FlushRecords(last: ScreenRecord, screen: int, power: int, nowDate: string): (rs: seq<ScreenRecord>)
    ensures 1 <= |rs| <= 2 && rs[|rs| - 1].date == nowDate
  {
    var screenTotal, powerTotal := last.screen + screen, last.power + power;
    if Prefix(last.date, 10) == Prefix(nowDate, 10) then [ScreenRecord(nowDate, screenTotal, powerTotal)]
    else [ScreenRecord(last.date, screenTotal, powerTotal), ScreenRecord(nowDate, 0, 0)]
  }

  /** The counts are added to the last record's totals. Same day: that record is the
      only one written and is re-dated to now. Day change: it keeps its date, and exactly
      one record follows, dated now, with zero totals. */
  lemma FlushAccumulates(last: ScreenRecord, screen: int, power: int, nowDate: string)
    ensures var rs := FlushRecords(last, screen, power, nowDate);
      && rs[0].screen == last.screen + screen && rs[0].power == last.power + power
      && (Prefix(last.date, 10) == Prefix(nowDate, 10) ==> |rs| == 1 && rs[0].date == nowDate)
      && (Prefix(last.date, 10) != Prefix(nowDate, 10) ==>
            |rs| == 2 && rs[0].date == last.date && rs[1] == ScreenRecord(nowDate, 0, 0))
  {
  }

  /** The appended line of a new day is the literal zero line. */
  lemma ZeroLine(date: string)
    ensures RecordLine(ScreenRecord(date, 0, 0)) == date + "\t00:00:00\t00:00:00\n"
  {
    HmsZero();
  }

  lemma HmsZero()
    ensures SecsToHms(0) == "00:00:00"
  {
    assert TwoDigits(0) == "00";
  }

  /** What the next flush reads is the last record this flush wrote, so a flush's
      counts are never lost; the date string must hold no tab. */
  lemma {:induction false} FlushReadBack(lines: seq<string>, screen: int, power: int, nowDate: string)
    requires LastRecord(lines).Some? && '\t' !in nowDate
    ensures var rs := FlushRecords(LastRecord(lines).value, screen, power, nowDate);
      LastRecord(lines[..|lines| - 1] + RecordLines(rs)) == Some(rs[|rs| - 1])
  {
    var last := LastRecord(lines).value;
    var rs := FlushRecords(last, screen, power, nowDate);
    SplitPiecesAvoid(lines[|lines| - 1], '\t');
    assert '\t' !in last.date;
    if |rs| == 1 {
      assert rs == [rs[0]];
      RecordLinesOne(rs[0]);
    } else {
      assert rs == [rs[0], rs[1]];
      RecordLinesTwo(rs[0], rs[1]);
    }
    RecordRoundTrip(rs[|rs| - 1]);
  }

  // ---------------------------------------------------------------------------------
  // Seeding

  /** The header line: `Date` left-aligned in 19 characters, then the two column names. */
  function HeaderLine(): string
  {
    PadRight("Date", 19) + "\tScreen time\tPower-on time\n"
  }

  /** The log after start-up: a log of fewer than two lines gets the header and a zero
      record written over its start, without truncation. */
  function SeededLines(fileText: string, date: string): seq<string>
  {
    var ls := ReadLines(fileText);
    if |ls| < 2 then ReadLines(Overwrite(fileText, HeaderLine() + RecordLine(ScreenRecord(date, 0, 0))))
    else ls
  }

  lemma HeaderIsLine()
    ensures IsLine(HeaderLine())
  {
  }

  /** Seeding a short log leaves the header and a record of zero totals dated at
      start-up, followed only by whatever of the old text lay beyond them; a longer log
      is left as it is. */
  lemma Seeding(fileText: string, date: string)
    requires '\t' !in date && '\n' !in date
    ensures var seed := RecordLine(ScreenRecord(date, 0, 0));
      var w := HeaderLine() + seed;
      var ls := SeededLines(fileText, date);
      && (|ReadLines(fileText)| < 2 ==>
            && ls == [HeaderLine(), seed] + ReadLines(if |fileText| <= |w| then [] else fileText[|w|..])
            && ParseRecord(ls[1]) == Some(ScreenRecord(date, 0, 0)))
      && (|ReadLines(fileText)| >= 2 ==> ls == ReadLines(fileText))
  {
    if |ReadLines(fileText)| < 2 {
      HeaderIsLine();
      RecordIsLine(ScreenRecord(date, 0, 0));
      RecordRoundTrip(ScreenRecord(date, 0, 0));
      OverwriteLines(fileText, HeaderLine(), RecordLine(ScreenRecord(date, 0, 0)));
    }
  }

  // ---------------------------------------------------------------------------------
  // The poller

  datatype TickOutcome =
    | Waiting   // the flush gate is closed
    | Crashed   // the last line is missing or malformed: the script raises and stops
    | Flushed   // the totals were updated

  /** The flush gate, with the corrected midnight: screen time is pending and the flush
      interval has passed, or the local midnight of `now` differs from that of the
      previous tick. As long as the DST flag, and with it whether the October-to-December
      hour is subtracted, stays the same across the tick, it opens exactly when time is
      pending and due, or a new local day has begun. That covers the first tick of every
      month except, during DST, the one into or out of October to December. */
  predicate GateOpen(now: int, lastChecked: int, screenTime: int, timezone: int, local: int -> LocalTime): (open: bool)
    ensures -SecsPerDay < timezone <= SecsPerDay
            && local(now).isDst == local(now - Interval).isDst
            && (local(now).isDst && local(now).mon > 9) == (local(now - Interval).isDst && local(now - Interval).mon > 9)
            ==>
      (open <==> (screenTime > 0 && now >= lastChecked + FlushInterval)
                 || LocalDay(now, timezone, local(now)) != LocalDay(now - Interval, timezone, local(now - Interval)))
  {
    var open := (screenTime > 0 && now >= lastChecked + FlushInterval)
                || ToMidnightFixed(now, timezone, local(now)) != ToMidnightFixed(now - Interval, timezone, local(now - Interval));
    if -SecsPerDay < timezone <= SecsPerDay
       && local(now).isDst == local(now - Interval).isDst
       && (local(now).isDst && local(now).mon > 9) == (local(now - Interval).isDst && local(now - Interval).mon > 9)
    then
      SameMidnightSameDay(now, now - Interval, timezone, local(now), local(now - Interval));
      open
    else open
  }

  /** The screen-time count after one tick. */
  function Counted(screenTime: int, displayOn: bool): int
  {
    if displayOn then screenTime + Interval else screenTime
  }

  /** The screen-time logger: the log's lines as `readlines` returns them, the seconds
      of screen and power-on time counted since the last flush, and its time. */
  class ScreenMonitor {
    var lines: seq<string>
    var screenTime: int
    var powerTime: int
    var lastChecked: int

    /** Both counts are whole ticks and the screen was never on longer than the power. */
    predicate Valid()
      reads this
    {
      0 <= screenTime <= powerTime && screenTime % Interval == 0 && powerTime % Interval == 0
    }

    /** Start-up: seed a short log, then start counting from zero at `start`. */
    constructor (fileText: string, start: int, startDate: string)
      ensures lines == SeededLines(fileText, startDate)
      ensures screenTime == 0 && powerTime == 0 && lastChecked == start
      ensures Valid()
    {
      var ls := ReadLines(fileText);
      if |ls| < 2 {
        ls := ReadLines(Overwrite(fileText, HeaderLine() + RecordLine(ScreenRecord(startDate, 0, 0))));
      }
      lines := ls;
      screenTime, powerTime := 0, 0;
      lastChecked := start;
    }

    /** The rewrite of a flush: the counts are added to the totals of `last`, read
        from the last line, which is replaced by the new totals dated now (same day) or
        by the new totals under its own date followed by a zero line (new day). */
    method WriteFlush(last: ScreenRecord, screen: int, power: int, nowDate: string)
      requires |lines| > 0
      modifies this`lines
      ensures lines == old(lines)[..|old(lines)| - 1] + RecordLines(FlushRecords(last, screen, power, nowDate))
    {
      var screenTotal, powerTotal := last.screen + screen, last.power + power;
      ghost var kept := lines[..|lines| - 1];
      if Prefix(last.date, 10) == Prefix(nowDate, 10) {
        var updated := ScreenRecord(nowDate, screenTotal, powerTotal);
        lines := lines[|lines| - 1 := RecordLine(updated)];
        assert lines == kept + [RecordLine(updated)];
        RecordLinesOne(updated);
        assert FlushRecords(last, screen, power, nowDate) == [updated];
      } else {
        var finalised, newDay := ScreenRecord(last.date, screenTotal, powerTotal), ScreenRecord(nowDate, 0, 0);
        lines := lines[|lines| - 1 := RecordLine(finalised)];
        lines := lines + [RecordLine(newDay)];
        assert lines == kept + [RecordLine(finalised), RecordLine(newDay)];
        RecordLinesTwo(finalised, newDay);
        assert FlushRecords(last, screen, power, nowDate) == [finalised, newDay];
      }
    }

    /** The body of the flush, dated `nowDate`: read the last line (the script raises
        when it is missing or malformed, and nothing changes), add the counts to its
        totals, reset the counts, and rewrite the lines. */
    method Flush(nowDate: string) returns (flushed: bool)
      requires Valid()
      modifies this`lines, this`screenTime, this`powerTime
      ensures Valid()
      ensures flushed <==> LastRecord(old(lines)).Some?
      ensures !flushed ==> lines == old(lines) && screenTime == old(screenTime) && powerTime == old(powerTime)
      ensures flushed ==>
        && lines == old(lines)[..|old(lines)| - 1]
                    + RecordLines(FlushRecords(LastRecord(old(lines)).value, old(screenTime), old(powerTime), nowDate))
        && screenTime == 0 && powerTime == 0
    {
      if |lines| == 0 {
        return false;
      }
      var last := ParseRecord(lines[|lines| - 1]);
      if last.None? {
        return false;
      }
      var screenCount, powerCount := screenTime, powerTime;
      screenTime, powerTime := 0, 0;
      WriteFlush(last.value, screenCount, powerCount, nowDate);
      flushed := true;
    }

    /** The per-tick counting: ten seconds of power-on time, and ten of screen time
        when the display is on. */
    method Count(displayOn: bool)
      requires Valid()
      modifies this`screenTime, this`powerTime
      ensures Valid()
      ensures powerTime == old(powerTime) + Interval
      ensures screenTime == Counted(old(screenTime), displayOn)
    {
      powerTime := powerTime + Interval;
      if displayOn {
        screenTime := screenTime + Interval;
      }
    }

    /** One pass of the polling loop at time `now`: count the tick, then flush if due.
        `displayOn` is the display's power state, `tts` the local date formatter,
        `local` the local-time fields and `timezone` the offset west of UTC. */
    method Tick(now: int, displayOn: bool, tts: int -> string, timezone: int, local: int -> LocalTime)
      returns (o: TickOutcome)
      requires Valid()
      modifies this
      ensures Valid()
      ensures o == Waiting <==> !GateOpen(now, old(lastChecked), Counted(old(screenTime), displayOn), timezone, local)
      ensures lastChecked == if o == Waiting then old(lastChecked) else now
      ensures o == Crashed <==> o != Waiting && LastRecord(old(lines)).None?
      ensures o != Flushed ==>
        && lines == old(lines)
        && screenTime == Counted(old(screenTime), displayOn) && powerTime == old(powerTime) + Interval
      ensures o == Flushed ==>
        && lines == old(lines)[..|old(lines)| - 1]
                    + RecordLines(FlushRecords(LastRecord(old(lines)).value, Counted(old(screenTime), displayOn),
                                               old(powerTime) + Interval, tts(now)))
        && screenTime == 0 && powerTime == 0
    {
      Count(displayOn);
      var due := GateOpen(now, lastChecked, screenTime, timezone, local);
      if !due {
        return Waiting;
      }
      lastChecked := now;

      assert lines == old(lines) && screenTime == Counted(old(screenTime), displayOn);
      var flushed := Flush(tts(now));
      o := if flushed then Flushed else Crashed;
    }
  }
}
