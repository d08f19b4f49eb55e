/** The daily network-traffic log: one tab-separated record per day holding the raw
    interface counters last seen (the baseline) and the month and day totals of bytes
    received and sent. Every flush folds the clamped growth of the raw counters into
    the totals and either rewrites the last record (same day) or finalises it and
    appends a fresh one (new day). */
module Traffic {
  import opened Basics
  import opened Numerals

  /** Seconds between polls, and between flushes within one day. */
  const Interval: int := 10
  const FlushInterval: int := 600

  /** The header row, as `_fmt(name, width)` right-aligns each name; every column of
      every line is right-aligned to the width of its header (19 for the date, 12 for
      the raw and month counters, 11 for the day counters, 10 for the display columns). */
  const Headers: seq<string> := [
    "               Date",
    "    Rx_Bytes", "    Tx_Bytes",
    "    Rx_Month", "    Tx_Month",
    "     Rx_Day", "     Tx_Day",
    "Rx_Mon_GiB", "Tx_Mon_GiB",
    "Rx_Day_GiB", "Tx_Day_GiB"
  ]

  /** The six integer columns of a record line and its date column. */
  datatype TrafficRecord = TrafficRecord(
    date: string,
    rx: int, tx: int,
    monthRx: int, monthTx: int,
    dayRx: int, dayTx: int)

  predicate NonNegative(r: TrafficRecord)
  {
    r.rx >= 0 && r.tx >= 0 && r.monthRx >= 0 && r.monthTx >= 0 && r.dayRx >= 0 && r.dayTx >= 0
  }

  /** The words `_fmt_line` receives for a record. */
  function Words(r: TrafficRecord): seq<string>
  {
    [r.date,
     IntToString(r.rx), IntToString(r.tx),
     IntToString(r.monthRx), IntToString(r.monthTx),
     IntToString(r.dayRx), IntToString(r.dayTx)]
  }

  function PaddedFields(words: seq<string>): (r: seq<string>)
    requires |words| <= |Headers|
    ensures |r| == |words|
    ensures forall i :: 0 <= i < |words| ==> r[i] == PadLeft(words[i], |Headers[i]|)
  {
    seq(|words|, i requires 0 <= i < |words| => PadLeft(words[i], |Headers[i]|))
  }

  /** The text `_fmt_line(words)` produces. */
  function FormattedLine(words: seq<string>): (line: string)
    requires |words| <= |Headers|
    ensures |line| >= 1 && line[|line| - 1] == '\n'
  {
    Join(PaddedFields(words), '\t') + "\n"
  }

  /** `_fmt_line`: pads each word to the width of its column's header, one at a time,
      then joins them with tabs and ends the line. */
  method FormatLine(words: seq<string>) returns (line: string)
    requires |words| <= |Headers|
    ensures line == FormattedLine(words)
  {
    var ws: seq<string> := [];
    var i := 0;
    while i < |words|
      invariant 0 <= i <= |words|
      invariant ws == PaddedFields(words[..i])
    {
      ws := ws + [PadLeft(words[i], |Headers[i]|)];
      i := i + 1;
    }
    assert words[..i] == words;
    line := Join(ws, '\t') + "\n";
  }

  /** The four display columns, `'{:.2f}'.format(x / GiB)` of the month and day totals
      of `r`; `gib` is that floating-point formatter, which the model takes as given. */
  function Shown(r: TrafficRecord, gib: int -> string): seq<string>
  {
    [gib(r.monthRx), gib(r.monthTx), gib(r.dayRx), gib(r.dayTx)]
  }

  /** The line of a record followed by the display columns `shown`. */
  function FormatRecord(r: TrafficRecord, shown: seq<string>): string
    requires |shown| <= 4
  {
    FormattedLine(Words(r) + shown)
  }

  /** The lines of a flush: every record is followed by the same display columns. */
  function FormatRecords(rs: seq<TrafficRecord>, shown: seq<string>): (ls: seq<string>)
    requires |shown| <= 4
    ensures |ls| == |rs|
  {
    if rs == [] then [] else [FormatRecord(rs[0], shown)] + FormatRecords(rs[1..], shown)
  }

  /** `map(int, fields)`: every field through `int()`, or `None` if one is rejected. */
  function ParseInts(fields: seq<string>): (r: Option<seq<int>>)
    ensures r.Some? ==> |r.value| == |fields|
  {
    if fields == [] then Some([])
    else
      match (ParseInt(fields[0]), ParseInts(fields[1..]))
      case (Some(v), Some(vs)) => Some([v] + vs)
      case _ => None
  }

  /** Reading a record line back: split on tabs, the date is the first field, and
      fields 1 to 6 go through `int()`. Too few fields or a field `int()` rejects make
      the script raise, which is `None` here. */
  function ParseRecord(line: string): (r: Option<TrafficRecord>)
    ensures r.Some? ==> |Split(line, '\t')| >= 7 && r.value.date == Split(line, '\t')[0]
  {
    var segs := Split(line, '\t');
    if |segs| < 7 then None
    else
      match ParseInts(segs[1..7])
      case Some(v) => Some(TrafficRecord(segs[0], v[0], v[1], v[2], v[3], v[4], v[5]))
      case None => None
  }

  /** The record a flush reads: the last line of the log, if it parses. */
  function LastRecord(lines: seq<string>): Option<TrafficRecord>
  {
    if lines == [] then None else ParseRecord(lines[|lines| - 1])
  }

  lemma PaddedAvoids(s: string, w: nat, c: char)
    requires c != ' ' && c !in s
    ensures c !in PadLeft(s, w)
  {
  }

  /** The fields a formatted line splits into: each word padded to its column, the
      last one followed by the newline. */
  lemma {:induction false} FormattedFields(words: seq<string>)
    requires 1 <= |words| <= |Headers| && NoneContains(words, '\t')
    ensures var p := PaddedFields(words);
      Split(FormattedLine(words), '\t') == p[..|p| - 1] + [p[|p| - 1] + "\n"]
  {
    var p := PaddedFields(words);
    PaddedFieldsAvoid(words, '\t');
    LastExtendedAvoids(p, "\n", '\t');
    JoinAppend(p, '\t', "\n");
    SplitJoin(p[..|p| - 1] + [p[|p| - 1] + "\n"], '\t');
  }

  lemma PaddedFieldsAvoid(words: seq<string>, c: char)
    requires |words| <= |Headers| && c != ' ' && NoneContains(words, c)
    ensures NoneContains(PaddedFields(words), c)
  {
    var p := PaddedFields(words);
    forall i | 0 <= i < |words| ensures c !in p[i] {
      PaddedAvoids(words[i], |Headers[i]|, c);
    }
  }

  /** A formatted line is one line of the file when no word holds a newline. */
  lemma {:induction false} FormattedLineIsLine(words: seq<string>)
    requires |words| <= |Headers| && NoneContains(words, '\n')
    ensures IsLine(FormattedLine(words))
  {
    var p := PaddedFields(words);
    forall i | 0 <= i < |words| ensures '\n' !in p[i] {
      PaddedAvoids(words[i], |Headers[i]|, '\n');
    }
    JoinAvoids(p, '\t', '\n');
    var line := FormattedLine(words);
    assert line[..|line| - 1] == Join(p, '\t');
  }

  lemma ParseField(v: int, w: nat, post: string)
    requires AllSpace(post)
    ensures ParseInt(PadLeft(IntToString(v), w) + post) == Some(v)
  {
    var s := IntToString(v);
    var pad := Spaces(|PadLeft(s, w)| - |s|);
    assert PadLeft(s, w) + post == pad + s + post;
    ParseIntRoundTrip(v, pad, post);
  }

  lemma NumeralAvoids(v: int, c: char)
    requires c != '-' && !IsDigit(c)
    ensures c !in IntToString(v)
  {
    NumeralChars(v);
  }

  /** Fields 1 to 6 of a formatted line read back as the integers written there, and
      field 0 as the date padded to its column. */
  lemma {:induction false} ParseFormatted(words: seq<string>, vals: seq<int>)
    requires 7 <= |words| <= |Headers| && NoneContains(words, '\t')
    requires |vals| == 6 && forall i :: 0 <= i < 6 ==> words[i + 1] == IntToString(vals[i])
    ensures ParseRecord(FormattedLine(words))
         == Some(TrafficRecord(PadLeft(words[0], 19), vals[0], vals[1], vals[2], vals[3], vals[4], vals[5]))
  {
    var segs := Split(FormattedLine(words), '\t');
    FormattedSegment(words, 0);
    assert |Headers[0]| == 19 && segs[0] == PadLeft(words[0], 19) + "";
    assert segs[0] == PadLeft(words[0], 19);
    forall i | 1 <= i <= 6 ensures ParseInt(segs[i]) == Some(vals[i - 1]) {
      FormattedSegment(words, i);
      ParseField(vals[i - 1], |Headers[i]|, if i == |words| - 1 then "\n" else "");
    }
    ParseIntsAll(segs[1..7], vals);
  }

  /** Field `i` of a formatted line is word `i` padded to its column, followed by the
      newline when it is the last. */
  lemma FormattedSegment(words: seq<string>, i: int)
    requires 1 <= |words| <= |Headers| && NoneContains(words, '\t') && 0 <= i < |words|
    ensures |Split(FormattedLine(words), '\t')| == |words|
    ensures Split(FormattedLine(words), '\t')[i]
         == PadLeft(words[i], |Headers[i]|) + (if i == |words| - 1 then "\n" else "")
  {
    var p := PaddedFields(words);
    FormattedFields(words);
    var segs := p[..|p| - 1] + [p[|p| - 1] + "\n"];
    assert Split(FormattedLine(words), '\t') == segs;
    if i < |words| - 1 {
      assert segs[i] == p[i] == p[i] + "";
    } else {
      assert segs[i] == p[i] + "\n";
    }
  }

  lemma {:induction false} ParseIntsAll(fields: seq<string>, vals: seq<int>)
    requires |fields| == |vals| && forall i :: 0 <= i < |fields| ==> ParseInt(fields[i]) == Some(vals[i])
    ensures ParseInts(fields) == Some(vals)
    decreases |fields|
  {
    if fields != [] {
      ParseIntsAll(fields[1..], vals[1..]);
      assert [vals[0]] + vals[1..] == vals;
    }
  }

  /** A written record reads back unchanged, its date padded to 19 characters, as long
      as the date holds no tab. */
  lemma {:induction false} RecordRoundTrip(r: TrafficRecord, shown: seq<string>)
    requires '\t' !in r.date && |shown| <= 4 && NoneContains(shown, '\t')
    ensures ParseRecord(FormatRecord(r, shown)) == Some(r.(date := PadLeft(r.date, 19)))
  {
    var w := Words(r) + shown;
    forall i | 0 <= i < |w| ensures '\t' !in w[i] {
      if 1 <= i < 7 {
        NumeralAvoids([r.rx, r.tx, r.monthRx, r.monthTx, r.dayRx, r.dayTx][i - 1], '\t');
      } else if i >= 7 {
        assert w[i] == shown[i - 7];
      }
    }
    ParseFormatted(w, [r.rx, r.tx, r.monthRx, r.monthTx, r.dayRx, r.dayTx]);
  }

  /** Python's `max(d, 0)`. */
  function Clamp(d: int): nat
  {
    if d > 0 then d else 0
  }

  /** The records a flush writes in place of the last record `last`, given the new
      raw readings and the current date string. */
  function Rollover(last: TrafficRecord, nowDate: string, rx1: int, tx1: int): (rs: seq<TrafficRecord>)
    ensures |rs| == (if CrossDay(last, nowDate) then 2 else 1)
    ensures rs[|rs| - 1].date == nowDate && rs[|rs| - 1].rx == rx1 && rs[|rs| - 1].tx == tx1
  {
    var deltaRx, deltaTx := Clamp(rx1 - last.rx), Clamp(tx1 - last.tx);
    var monthRx, monthTx := last.monthRx + deltaRx, last.monthTx + deltaTx;
    var crossDay, crossMonth := CrossDay(last, nowDate), CrossMonth(last, nowDate);
    var updated := TrafficRecord(if crossDay then last.date else nowDate, rx1, tx1,
                                 monthRx, monthTx, last.dayRx + deltaRx, last.dayTx + deltaTx);
    if !crossDay then [updated]
    else [updated, TrafficRecord(nowDate, rx1, tx1,
                                 if crossMonth then 0 else monthRx,
                                 if crossMonth then 0 else monthTx, 0, 0)]
  }

  predicate CrossDay(last: TrafficRecord, nowDate: string)
  {
    Prefix(last.date, 10) != Prefix(nowDate, 10)
  }

  predicate CrossMonth(last: TrafficRecord, nowDate: string)
  {
    Prefix(last.date, 7) != Prefix(nowDate, 7)
  }

  /** The growth of a raw counter, clamped at zero, is added to both the month and the
      day total, so no total ever decreases, even when a raw counter drops (a reboot);
      the new baseline is the raw reading. */
  lemma TotalsNeverDecrease(last: TrafficRecord, nowDate: string, rx1: int, tx1: int)
    ensures var r := Rollover(last, nowDate, rx1, tx1)[0];
      && r.rx == rx1 && r.tx == tx1
      && r.monthRx - last.monthRx == r.dayRx - last.dayRx == Clamp(rx1 - last.rx) >= 0
      && r.monthTx - last.monthTx == r.dayTx - last.dayTx == Clamp(tx1 - last.tx) >= 0
      && (rx1 >= last.rx ==> r.dayRx - last.dayRx == rx1 - last.rx)
      && (tx1 >= last.tx ==> r.dayTx - last.dayTx == tx1 - last.tx)
  {
  }

  /** Non-negative records stay non-negative through a flush with positive readings. */
  lemma StaysNonNegative(last: TrafficRecord, nowDate: string, rx1: int, tx1: int)
    requires NonNegative(last) && rx1 > 0 && tx1 > 0
    ensures forall r :: r in Rollover(last, nowDate, rx1, tx1) ==> NonNegative(r)
  {
  }

  /** Same day: the single record is re-dated to now and carries the new baseline. */
  lemma SameDay(last: TrafficRecord, nowDate: string, rx1: int, tx1: int)
    requires !CrossDay(last, nowDate)
    ensures var rs := Rollover(last, nowDate, rx1, tx1);
      |rs| == 1 && rs[0].date == nowDate && rs[0].rx == rx1 && rs[0].tx == tx1
  {
  }

  /** Day change: the finished record keeps its own date, and exactly one record is
      appended, dated now, with the new baseline and zero day totals. */
  lemma DayChange(last: TrafficRecord, nowDate: string, rx1: int, tx1: int)
    requires CrossDay(last, nowDate)
    ensures var rs := Rollover(last, nowDate, rx1, tx1);
      && |rs| == 2 && rs[0].date == last.date
      && rs[1].date == nowDate && rs[1].rx == rx1 && rs[1].tx == tx1
      && rs[1].dayRx == 0 && rs[1].dayTx == 0
  {
  }

  /** A month change is a day change; it zeroes the new record's month totals, while a
      day-only change carries the updated month totals over. */
  lemma MonthChange(last: TrafficRecord, nowDate: string, rx1: int, tx1: int)
    ensures CrossMonth(last, nowDate) ==> CrossDay(last, nowDate)
    ensures var rs := Rollover(last, nowDate, rx1, tx1);
      && (CrossMonth(last, nowDate) ==> rs[1].monthRx == 0 && rs[1].monthTx == 0)
      && (CrossDay(last, nowDate) && !CrossMonth(last, nowDate) ==>
            rs[1].monthRx == rs[0].monthRx && rs[1].monthTx == rs[0].monthTx)
  {
    if CrossMonth(last, nowDate) && !CrossDay(last, nowDate) {
      SameDaySameMonth(last.date, nowDate);
    }
  }

  /** The record the next flush reads is the last one this flush wrote (its date padded
      to its column), provided the date string holds no tab. */
  lemma {:induction false} FlushReadBack(lines: seq<string>, nowDate: string, rx1: int, tx1: int,
                                         shown: seq<string>)
    requires LastRecord(lines).Some? && '\t' !in nowDate
    requires |shown| <= 4 && NoneContains(shown, '\t')
    ensures var rs := Rollover(LastRecord(lines).value, nowDate, rx1, tx1);
      var r := rs[|rs| - 1];
      LastRecord(lines[..|lines| - 1] + FormatRecords(rs, shown)) == Some(r.(date := PadLeft(r.date, 19)))
  {
    var last := LastRecord(lines).value;
    var rs := Rollover(last, nowDate, rx1, tx1);
    SplitPiecesAvoid(lines[|lines| - 1], '\t');
    assert '\t' !in last.date;
    RecordRoundTrip(rs[|rs| - 1], shown);
  }

  lemma {:induction false} FormatRecordsAppend(rs: seq<TrafficRecord>, r: TrafficRecord, shown: seq<string>)
    requires |shown| <= 4
    ensures FormatRecords(rs + [r], shown) == FormatRecords(rs, shown) + [FormatRecord(r, shown)]
    decreases |rs|
  {
    if rs != [] {
      assert (rs + [r])[1..] == rs[1..] + [r];
      FormatRecordsAppend(rs[1..], r, shown);
    }
  }

  /** The line `_fmt_line(headers)` writes. */
  function HeaderLine(): string
  {
    FormattedLine(Headers)
  }

  /** The first record: the date, the current readings and eight zeros (month and day
      totals, and the four display columns). */
  function SeedWords(date: string, rx: int, tx: int): seq<string>
  {
    var z := IntToString(0);
    [date, IntToString(rx), IntToString(tx), z, z, z, z, z, z, z, z]
  }

  /** The log after start-up: a log of fewer than two lines gets the header and the
      first record written over its start, without truncation. */
  function SeededLines(fileText: string, date: string, rx: int, tx: int): seq<string>
  {
    var ls := ReadLines(fileText);
    if |ls| < 2 then ReadLines(Overwrite(fileText, HeaderLine() + FormattedLine(SeedWords(date, rx, tx))))
    else ls
  }

  /** Seeding a short log leaves the header and one record holding the current readings
      and zero totals, followed only by whatever of the old text lay beyond them (nothing
      when the old text was no longer). */
  lemma {:induction false} Seeding(fileText: string, date: string, rx: int, tx: int)
    requires |ReadLines(fileText)| < 2 && '\t' !in date && '\n' !in date
    ensures var w := HeaderLine() + FormattedLine(SeedWords(date, rx, tx));
      var ls := SeededLines(fileText, date, rx, tx);
      && ls == [HeaderLine(), FormattedLine(SeedWords(date, rx, tx))]
               + ReadLines(if |fileText| <= |w| then [] else fileText[|w|..])
      && ParseRecord(ls[1]) == Some(TrafficRecord(PadLeft(date, 19), rx, tx, 0, 0, 0, 0))
  {
    HeaderIsLine();
    SeedLine(date, rx, tx);
    OverwriteLines(fileText, HeaderLine(), FormattedLine(SeedWords(date, rx, tx)));
  }

  lemma HeaderIsLine()
    ensures IsLine(HeaderLine())
  {
    forall i | 0 <= i < |Headers| ensures '\n' !in Headers[i] {
      assert forall c :: c in Headers[i] ==> c == ' ' || c == '_' || 'A' <= c <= 'z';
    }
    FormattedLineIsLine(Headers);
  }

  /** The first record is one line, and reads back as the start-up readings with zero
      totals. */
  lemma SeedLine(date: string, rx: int, tx: int)
    requires '\t' !in date && '\n' !in date
    ensures IsLine(FormattedLine(SeedWords(date, rx, tx)))
    ensures ParseRecord(FormattedLine(SeedWords(date, rx, tx)))
         == Some(TrafficRecord(PadLeft(date, 19), rx, tx, 0, 0, 0, 0))
  {
    SeedWordsAvoid(date, rx, tx, '\n');
    FormattedLineIsLine(SeedWords(date, rx, tx));
    SeedLineParses(date, rx, tx);
  }

  lemma SeedLineParses(date: string, rx: int, tx: int)
    requires '\t' !in date
    ensures ParseRecord(FormattedLine(SeedWords(date, rx, tx)))
         == Some(TrafficRecord(PadLeft(date, 19), rx, tx, 0, 0, 0, 0))
  {
    var words, vals := SeedWords(date, rx, tx), [rx, tx, 0, 0, 0, 0];
    SeedWordsAvoid(date, rx, tx, '\t');
    assert words[1] == IntToString(vals[0]) && words[2] == IntToString(vals[1]);
    assert forall i :: 2 <= i < 6 ==> words[i + 1] == IntToString(vals[i]);
    ParseFormatted(words, vals);
  }

  lemma SeedWordsAvoid(date: string, rx: int, tx: int, c: char)
    requires c != '-' && !IsDigit(c) && c !in date
    ensures NoneContains(SeedWords(date, rx, tx), c)
  {
    NumeralAvoids(rx, c);
    NumeralAvoids(tx, c);
    NumeralAvoids(0, c);
  }

  /** The update of one flush: the clamped growth of the raw counters is added to the
      month and day totals read from `last`, which is rewritten (same day) or finalised
      and followed by a new record (new day); gives the records that replace `last`. */
  method UpdateRecords(last: TrafficRecord, nowDate: string, rx1: int, tx1: int) returns (rs: seq<TrafficRecord>)
    ensures rs == Rollover(last, nowDate, rx1, tx1)
  {
    var lastDate := last.date;
    var rx0, tx0 := last.rx, last.tx;
    var mrx, mtx := last.monthRx, last.monthTx;
    var drx, dtx := last.dayRx, last.dayTx;

    var deltaRx := if rx1 - rx0 > 0 then rx1 - rx0 else 0;
    var deltaTx := if tx1 - tx0 > 0 then tx1 - tx0 else 0;
    mrx, mtx := mrx + deltaRx, mtx + deltaTx;
    drx, dtx := drx + deltaRx, dtx + deltaTx;

    var crossDay := Prefix(lastDate, 10) != Prefix(nowDate, 10);
    var crossMonth := Prefix(lastDate, 7) != Prefix(nowDate, 7);
    lastDate := if crossDay then lastDate else nowDate;
    rs := [TrafficRecord(lastDate, rx1, tx1, mrx, mtx, drx, dtx)];

    if crossMonth {
      mrx, mtx := 0, 0;
    }
    if crossDay {
      rs := rs + [TrafficRecord(nowDate, rx1, tx1, mrx, mtx, 0, 0)];
    }
  }

  /** Writes the records of a flush, one formatted line each. */
  method FormatAll(rs: seq<TrafficRecord>, shown: seq<string>) returns (written: seq<string>)
    requires |rs| <= 2 && |shown| <= 4
    ensures written == FormatRecords(rs, shown)
  {
    written := [];
    var i := 0;
    while i < |rs|
      invariant 0 <= i <= |rs|
      invariant written == FormatRecords(rs[..i], shown)
    {
      var line := FormatLine(Words(rs[i]) + shown);
      FormatRecordsAppend(rs[..i], rs[i], shown);
      assert rs[..i + 1] == rs[..i] + [rs[i]];
      written := written + [line];
      i := i + 1;
    }
    assert rs[..i] == rs;
  }

  datatype TickOutcome =
    | Waiting   // the flush gate is closed
    | Crashed   // the last line is missing or malformed: the script raises and stops
    | Skipped   // a raw reading is not positive: nothing is written
    | Flushed   // the records were updated

  /** The traffic logger: the log's lines as `readlines` returns them and the time of
      the last flush. */
  class TrafficMonitor {
    var lines: seq<string>
    var lastChecked: int

    /** Start-up: seed a short log, then remember the start time. */
    constructor (fileText: string, start: int, startDate: string, rx: int, tx: int)
      ensures lines == SeededLines(fileText, startDate, rx, tx)
      ensures lastChecked == start
    {
      var ls := ReadLines(fileText);
      if |ls| < 2 {
        var header := FormatLine(Headers);
        var first := FormatLine(SeedWords(startDate, rx, tx));
        assert header + first == HeaderLine() + FormattedLine(SeedWords(startDate, rx, tx));
        ls := ReadLines(Overwrite(fileText, header + first));
      }
      lines := ls;
      lastChecked := start;
    }

    /** One pass of the polling loop at time `now`, with the raw readings `rx1`, `tx1`
        the interface reports, `tts` the local date formatter and `gib` the formatter
        of the display columns. */
    method Tick(now: int, tts: int -> string, rx1: int, tx1: int, gib: int -> string) returns (o: TickOutcome)
      modifies this
      ensures o == Waiting <==> !FlushDue(now, old(lastChecked), tts, Interval, FlushInterval)
      ensures lastChecked == if o == Waiting then old(lastChecked) else now
      ensures o == Crashed <==> o != Waiting && LastRecord(old(lines)).None?
      ensures o == Skipped <==> o != Waiting && LastRecord(old(lines)).Some? && !(rx1 > 0 && tx1 > 0)
      ensures o != Flushed ==> lines == old(lines)
      ensures o == Flushed ==>
        var rs := Rollover(LastRecord(old(lines)).value, tts(now), rx1, tx1);
        lines == old(lines)[..|old(lines)| - 1] + FormatRecords(rs, Shown(rs[0], gib))
    {
      if !FlushDue(now, lastChecked, tts, Interval, FlushInterval) {
        return Waiting;
      }
      lastChecked := now;

      if |lines| == 0 {
        return Crashed;
      }
      var parsed := ParseRecord(lines[|lines| - 1]);
      assert parsed == LastRecord(old(lines));
      if parsed.None? {
        return Crashed;
      }
      if !(rx1 > 0 && tx1 > 0) {
        return Skipped;
      }
      var records := UpdateRecords(parsed.value, tts(now), rx1, tx1);
      var shown := [gib(records[0].monthRx), gib(records[0].monthTx),
                    gib(records[0].dayRx), gib(records[0].dayTx)];
      var written := FormatAll(records, shown);
      lines := lines[..|lines| - 1] + written;
      o := Flushed;
    }
  }

  /** The scenario of a first and a second reading on one day: the second reading's
      growth lands in both the month and the day totals of the same record. */
  lemma SameDayScenario()
    ensures Rollover(TrafficRecord("2024-03-01 10:00:00", 100, 50, 0, 0, 0, 0), "2024-03-01 10:00:10", 1000, 200)
         == [TrafficRecord("2024-03-01 10:00:10", 1000, 200, 900, 150, 900, 150)]
  {
  }
}
