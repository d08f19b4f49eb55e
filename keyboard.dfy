/** The daily keystroke log: one record per day mapping key labels to press counts
    (with a `"total"` entry), and a final `Total` record accumulating all days. A
    listener counts presses into an in-memory map; a flush reconciles that map with the
    day record last written (the map restarts empty after a reboot), adds the new
    presses to the all-time totals, and rewrites the last two records or, on a new day,
    finalises the day record and starts another. */
module Keyboard {
  import opened Basics

  /** Seconds between polls, and between flushes within one day. */
  const Interval: int := 10
  const FlushInterval: int := 600

  /** The key every press also counts under. */
  const TotalKey: string := "total"

  /** The tag of the all-time record, `Total` left-aligned in 19 characters. */
  const TotalLabel: string := "Total              "

  type Counts = map<string, int>

  /** `d.get(k, 0)`. */
  function Get(m: Counts, k: string): int
  {
    if k in m then m[k] else 0
  }

  predicate AllPositive(m: Counts)
  {
    forall k :: k in m ==> m[k] > 0
  }

  predicate NonNegative(m: Counts)
  {
    forall k :: k in m ==> m[k] >= 0
  }

  // ---------------------------------------------------------------------------------
  // Counting presses

  /** `on_press(key)`: the key's count and the total count each go up by one, each
      starting from zero when absent. */
  function Press(m: Counts, key: string): (r: Counts)
    ensures r.Keys == m.Keys + {key, TotalKey}
    ensures r[TotalKey] == Get(m, TotalKey) + (if key == TotalKey then 2 else 1)
  {
    var m1 := m[key := Get(m, key) + 1];
    m1[TotalKey := Get(m1, TotalKey) + 1]
  }

  /** A press of any key other than `total` raises that key's count and the total by
      exactly one and leaves every other count alone. */
  lemma PressCounts(m: Counts, key: string)
    requires key != TotalKey
    ensures var r := Press(m, key);
      && r.Keys == m.Keys + {key, TotalKey}
      && r[key] == Get(m, key) + 1 && r[TotalKey] == Get(m, TotalKey) + 1
      && forall k :: k in m && k != key && k != TotalKey ==> r[k] == m[k]
  {
  }

  /** Presses keep every count positive. */
  lemma PressKeepsPositive(m: Counts, key: string)
    requires AllPositive(m)
    ensures AllPositive(Press(m, key))
  {
  }

  /** The sum of the counts of the keys in `ks`. */
  ghost function SumOver(m: Counts, ks: set<string>): int
    requires ks <= m.Keys
    decreases ks
  {
    if ks == {} then 0
    else
      var k :| k in ks;
      m[k] + SumOver(m, ks - {k})
  }

  lemma {:induction false} SumOverRemove(m: Counts, ks: set<string>, k: string)
    requires ks <= m.Keys && k in ks
    ensures SumOver(m, ks) == m[k] + SumOver(m, ks - {k})
    decreases ks
  {
    var j :| j in ks && SumOver(m, ks) == m[j] + SumOver(m, ks - {j});
    if j != k {
      SumOverRemove(m, ks - {j}, k);
      SumOverRemove(m, ks - {k}, j);
      assert ks - {j} - {k} == ks - {k} - {j};
    }
  }

  lemma {:induction false} SumOverAgree(m1: Counts, m2: Counts, ks: set<string>)
    requires ks <= m1.Keys && ks <= m2.Keys
    requires forall k :: k in ks ==> m1[k] == m2[k]
    ensures SumOver(m1, ks) == SumOver(m2, ks)
    decreases ks
  {
    if ks != {} {
      var k :| k in ks;
      SumOverRemove(m1, ks, k);
      SumOverRemove(m2, ks, k);
      SumOverAgree(m1, m2, ks - {k});
    }
  }

  /** The `total` entry equals the sum of all the other entries. */
  ghost predicate Balanced(m: Counts)
  {
    Get(m, TotalKey) == SumOver(m, m.Keys - {TotalKey})
  }

  /** A press of any key other than `total` keeps the total equal to the sum of the
      other counts. */
  lemma PressKeepsBalance(m: Counts, key: string)
    requires key != TotalKey && Balanced(m)
    ensures Balanced(Press(m, key))
  {
    var r := Press(m, key);
    var others := m.Keys - {TotalKey};
    var others' := r.Keys - {TotalKey};
    assert others' == others + {key};
    SumOverRemove(r, others', key);
    if key in others {
      SumOverRemove(m, others, key);
      SumOverAgree(r, m, others - {key});
      assert others' - {key} == others - {key};
    } else {
      assert others' - {key} == others;
      SumOverAgree(r, m, others);
    }
  }

  // ---------------------------------------------------------------------------------
  // Map algebra

  /** `d1` holds every key of `d2` with at least its count. */
  ghost predicate Dominates(d1: Counts, d2: Counts)
  {
    forall k :: k in d2 ==> k in d1 && d1[k] >= d2[k]
  }

  /** `dict_gt`: scans the keys of `d2` and stops at the first one missing from `d1` or
      counted lower there. */
  method DictGt(d1: Counts, d2: Counts) returns (r: bool)
    ensures r == Dominates(d1, d2)
  {
    var rest := d2.Keys;
    while rest != {}
      invariant rest <= d2.Keys
      invariant forall k :: k in d2 && k !in rest ==> k in d1 && d1[k] >= d2[k]
      decreases rest
    {
      var k :| k in rest;
      if k !in d1 || d1[k] < d2[k] {
        return false;
      }
      rest := rest - {k};
    }
    return true;
  }

  /** Every map dominates the empty map and itself. */
  lemma DominatesEmptyAndSelf(d: Counts)
    ensures Dominates(d, map[]) && Dominates(d, d)
  {
  }

  /** `dict_sub`: the keys of `d1`, each less its count in `d2`. */
  function DictSub(d1: Counts, d2: Counts): (r: Counts)
    ensures r.Keys == d1.Keys
  {
    map k | k in d1 :: d1[k] - Get(d2, k)
  }

  /** `dict_add`, `Counter` addition: every key of either map with the sum of its
      counts, keys whose sum is not positive dropped. */
  function DictAdd(d1: Counts, d2: Counts): (r: Counts)
    ensures AllPositive(r) && r.Keys <= d1.Keys + d2.Keys
  {
    map k | k in d1.Keys + d2.Keys && Get(d1, k) + Get(d2, k) > 0 :: Get(d1, k) + Get(d2, k)
  }

  /** The entries of `d` with a positive count. */
  function PositivePart(d: Counts): (r: Counts)
    ensures AllPositive(r)
  {
    map k | k in d && d[k] > 0 :: d[k]
  }

  /** A key is in a `Counter` sum iff its two counts add up to more than zero, and then
      it holds that sum; the result never holds a count below one. */
  lemma DictAddGet(d1: Counts, d2: Counts, k: string)
    ensures var r := DictAdd(d1, d2);
      && (k in r <==> Get(d1, k) + Get(d2, k) > 0)
      && Get(r, k) == if Get(d1, k) + Get(d2, k) > 0 then Get(d1, k) + Get(d2, k) else 0
  {
  }

  lemma DictAddCommutes(d1: Counts, d2: Counts)
    ensures DictAdd(d1, d2) == DictAdd(d2, d1)
  {
    assert d1.Keys + d2.Keys == d2.Keys + d1.Keys;
  }

  /** When `d1` dominates `d2` and has no negative count, the difference has none
      either. */
  lemma SubNonNegative(d1: Counts, d2: Counts)
    requires Dominates(d1, d2) && NonNegative(d1)
    ensures NonNegative(DictSub(d1, d2))
  {
  }

  /** When `d1` dominates `d2`, adding `d2` back to the difference gives `d1` less its
      non-positive entries. */
  lemma SubAddInverse(d1: Counts, d2: Counts)
    requires Dominates(d1, d2)
    ensures DictAdd(DictSub(d1, d2), d2) == PositivePart(d1)
  {
    var s := DictSub(d1, d2);
    forall k ensures k in DictAdd(s, d2) <==> k in PositivePart(d1) {
      DictAddGet(s, d2, k);
    }
    assert DictAdd(s, d2).Keys == PositivePart(d1).Keys;
  }

  // ---------------------------------------------------------------------------------
  // Reconciliation

  /** The outcome of a flush's reconciliation: the in-memory map afterwards, the
      presses not yet in the totals, and the new all-time totals. */
  datatype Reconciled = Reconciled(keymap: Counts, delta: Counts, total: Counts)

  /** If the in-memory map still dominates the day record `mlast` written last time,
      the new presses are taken to be the difference; otherwise a restart is assumed:
      every count in memory is taken as new, and the map is rebased onto `mlast`. Either
      way the new presses are added to the totals. Domination only guesses whether the
      listener restarted; `RestartUndercounts` shows a wrong guess. */
  ghost function Reconcile(keymap: Counts, mlast: Counts, mtotal: Counts): (r: Reconciled)
    ensures r.delta.Keys == keymap.Keys
  {
    if Dominates(keymap, mlast) then
      var delta := DictSub(keymap, mlast);
      Reconciled(keymap, delta, DictAdd(mtotal, delta))
    else
      Reconciled(DictAdd(keymap, mlast), keymap, DictAdd(mtotal, keymap))
  }

  /** The totals grow by exactly the new presses, key by key, and the new presses are
      never negative: nothing is lost and nothing is subtracted. */
  lemma TotalAccumulates(keymap: Counts, mlast: Counts, mtotal: Counts)
    requires AllPositive(keymap) && NonNegative(mtotal)
    ensures var r := Reconcile(keymap, mlast, mtotal);
      && NonNegative(r.delta)
      && forall k :: Get(r.total, k) == Get(mtotal, k) + Get(r.delta, k)
  {
    var r := Reconcile(keymap, mlast, mtotal);
    if Dominates(keymap, mlast) {
      SubNonNegative(keymap, mlast);
    }
    forall k ensures Get(r.total, k) == Get(mtotal, k) + Get(r.delta, k) {
      DictAddGet(mtotal, r.delta, k);
    }
  }

  /** After reconciliation the map dominates the day record it is compared with next
      time, as long as that record's counts are positive. */
  lemma ReconciledDominates(keymap: Counts, mlast: Counts, mtotal: Counts)
    requires NonNegative(keymap) && AllPositive(mlast)
    ensures Dominates(Reconcile(keymap, mlast, mtotal).keymap, mlast)
  {
    if !Dominates(keymap, mlast) {
      forall k | k in mlast ensures k in DictAdd(keymap, mlast) && DictAdd(keymap, mlast)[k] >= mlast[k] {
        DictAddGet(keymap, mlast, k);
      }
    }
  }

  /** When the map does not dominate the day record, the script takes it for a map that
      restarted empty: every count in it is counted as new, and the map becomes the day
      record plus them. */
  lemma RebootRebases(keymap: Counts, mlast: Counts, mtotal: Counts)
    requires !Dominates(keymap, mlast)
    ensures var r := Reconcile(keymap, mlast, mtotal);
      r.delta == keymap && r.keymap == DictAdd(keymap, mlast) && r.total == DictAdd(mtotal, keymap)
  {
  }

  /** Domination is a guess, not a test for a restart. A listener restarted since the
      last flush that has already seen more presses than the day record holds still
      dominates it, so the record's counts are subtracted from presses that are all new:
      of five presses of `a` after the restart, against a record of one, four are
      counted. */
  lemma RestartUndercounts()
    ensures var keymap, mlast := map["a" := 5, TotalKey := 5], map["a" := 1, TotalKey := 1];
      var r := Reconcile(keymap, mlast, map[]);
      Dominates(keymap, mlast) && r.delta == map["a" := 4, TotalKey := 4] && r.total == r.delta
  {
    var keymap, mlast := map["a" := 5, TotalKey := 5], map["a" := 1, TotalKey := 1];
    var delta := map["a" := 4, TotalKey := 4];
    assert mlast.Keys == keymap.Keys == delta.Keys == {"a", TotalKey};
    assert DictSub(keymap, mlast) == delta;
    assert DictAdd(map[], delta) == delta;
  }

  /** A flush that reads back the map it wrote, with no press since, adds nothing to
      positive totals: no keystroke is counted twice. */
  lemma NoDoubleCounting(keymap: Counts, mtotal: Counts)
    requires AllPositive(mtotal)
    ensures Reconcile(keymap, keymap, mtotal).total == mtotal
    ensures Reconcile(keymap, keymap, mtotal).keymap == keymap
  {
    DominatesEmptyAndSelf(keymap);
    var delta := DictSub(keymap, keymap);
    assert DictAdd(mtotal, delta).Keys == mtotal.Keys;
  }

  // ---------------------------------------------------------------------------------
  // Ordering the entries

  type Entry = (string, int)

  /** The labels of `es`. */
  function KeysOf(es: seq<Entry>): set<string>
  {
    if es == [] then {} else {es[0].0} + KeysOf(es[1..])
  }

  /** No key occurs twice. */
  predicate DistinctKeys(es: seq<Entry>)
  {
    es == [] || (es[0].0 !in KeysOf(es[1..]) && DistinctKeys(es[1..]))
  }

  /** Counts never increase along the sequence. */
  predicate NonIncreasing(es: seq<Entry>)
  {
    |es| <= 1 || (es[0].1 >= es[1].1 && NonIncreasing(es[1..]))
  }

  /** `dict(entries)`, as reading a serialised map back does: a later entry for the
      same key wins. */
  function ToMap(es: seq<Entry>): (m: Counts)
    ensures m.Keys == KeysOf(es)
  {
    if es == [] then map[]
    else
      var rest := ToMap(es[1..]);
      if es[0].0 in rest then rest else rest[es[0].0 := es[0].1]
  }

  /** `es` lists the entries of `m` once each, by non-increasing count. */
  predicate Serialises(es: seq<Entry>, m: Counts)
  {
    NonIncreasing(es) && DistinctKeys(es) && ToMap(es) == m
  }

  /** Entries with distinct keys list their map exactly: an entry is in the sequence
      iff the map holds it. With `EntryCount`, a serialisation is a permutation of the
      map's items. */
  lemma {:induction false} EntriesOfMap(es: seq<Entry>)
    requires DistinctKeys(es)
    ensures forall e :: e in es <==> e.0 in ToMap(es) && ToMap(es)[e.0] == e.1
    decreases |es|
  {
    if es != [] {
      var head, tail := es[0], es[1..];
      EntriesOfMap(tail);
      var rest := ToMap(tail);
      assert head.0 !in rest;
      assert ToMap(es) == rest[head.0 := head.1];
      forall e ensures e in es <==> e.0 in ToMap(es) && ToMap(es)[e.0] == e.1 {
        assert es == [head] + tail;
        assert e in es <==> e == head || e in tail;
      }
    }
  }

  /** Entries with distinct keys hold one entry per key of their map. */
  lemma {:induction false} EntryCount(es: seq<Entry>)
    requires DistinctKeys(es)
    ensures |es| == |ToMap(es).Keys|
    decreases |es|
  {
    if es != [] {
      EntryCount(es[1..]);
      assert es[0].0 !in KeysOf(es[1..]);
      assert ToMap(es).Keys == ToMap(es[1..]).Keys + {es[0].0};
    }
  }

  /** Any two entries are in non-increasing order of count. */
  lemma {:induction false} NonIncreasingOrdered(es: seq<Entry>, i: int, j: int)
    requires NonIncreasing(es) && 0 <= i <= j < |es|
    ensures es[i].1 >= es[j].1
    decreases |es|
  {
    if i < j {
      if i == 0 {
        NonIncreasingOrdered(es[1..], 0, j - 1);
      } else {
        NonIncreasingOrdered(es[1..], i - 1, j - 1);
      }
    }
  }

  /** One insertion step of the sort: before the first entry with a smaller count, so
      entries of equal count keep their order. */
  function Insert(es: seq<Entry>, e: Entry): (r: seq<Entry>)
    ensures |r| == |es| + 1
  {
    if es == [] || es[0].1 < e.1 then [e] + es
    else [es[0]] + Insert(es[1..], e)
  }

  /** Inserting an entry with a new key keeps the entries distinct, in order, and
      adds exactly that entry to the map they stand for. */
  lemma InsertKeeps(es: seq<Entry>, e: Entry)
    requires NonIncreasing(es) && DistinctKeys(es) && e.0 !in KeysOf(es)
    ensures var r := Insert(es, e);
      && KeysOf(r) == KeysOf(es) + {e.0}
      && NonIncreasing(r) && DistinctKeys(r)
      && ToMap(r) == ToMap(es)[e.0 := e.1]
  {
    InsertKeys(es, e);
    InsertOrdered(es, e);
    InsertMap(es, e);
  }

  lemma {:induction false} InsertKeys(es: seq<Entry>, e: Entry)
    requires DistinctKeys(es) && e.0 !in KeysOf(es)
    ensures KeysOf(Insert(es, e)) == KeysOf(es) + {e.0}
    ensures DistinctKeys(Insert(es, e))
    decreases |es|
  {
    var r := Insert(es, e);
    if es == [] || es[0].1 < e.1 {
      assert r[1..] == es;
    } else {
      InsertKeys(es[1..], e);
      assert r[1..] == Insert(es[1..], e);
    }
  }

  lemma {:induction false} InsertOrdered(es: seq<Entry>, e: Entry)
    requires NonIncreasing(es)
    ensures NonIncreasing(Insert(es, e))
    ensures Insert(es, e)[0].1 == if es == [] || es[0].1 < e.1 then e.1 else es[0].1
    decreases |es|
  {
    var r := Insert(es, e);
    if es == [] || es[0].1 < e.1 {
      assert r[1..] == es;
    } else {
      InsertOrdered(es[1..], e);
      assert r[1..] == Insert(es[1..], e);
    }
  }

  lemma {:induction false} InsertMap(es: seq<Entry>, e: Entry)
    requires DistinctKeys(es) && e.0 !in KeysOf(es)
    ensures ToMap(Insert(es, e)) == ToMap(es)[e.0 := e.1]
    decreases |es|
  {
    var r := Insert(es, e);
    if es == [] || es[0].1 < e.1 {
      assert r[1..] == es;
    } else {
      InsertMap(es[1..], e);
      InsertKeys(es[1..], e);
      assert r[1..] == Insert(es[1..], e);
      var head, rest := es[0], ToMap(es[1..]);
      assert head.0 != e.0 && head.0 !in ToMap(r[1..]);
      assert ToMap(r) == rest[e.0 := e.1][head.0 := head.1];
      assert ToMap(es) == rest[head.0 := head.1];
    }
  }

  /** `sorted(m.iteritems(), key=count, reverse=True)`: the entries of `m` by
      non-increasing count, built by inserting each entry in turn. */
  method SortByCount(m: Counts) returns (es: seq<Entry>)
    ensures Serialises(es, m)
  {
    es := [];
    var rest := m.Keys;
    while rest != {}
      invariant rest <= m.Keys
      invariant NonIncreasing(es) && DistinctKeys(es)
      invariant KeysOf(es) == m.Keys - rest
      invariant ToMap(es) == map k | k in m.Keys - rest :: m[k]
      decreases rest
    {
      var k :| k in rest;
      InsertKeeps(es, (k, m[k]));
      es := Insert(es, (k, m[k]));
      rest := rest - {k};
    }
  }

  // ---------------------------------------------------------------------------------
  // The log

  /** A line of the log: the header, or a tag (a date, or the total label) with a
      serialised map. */
  datatype LogLine = Header | Record(tag: string, entries: seq<Entry>)

  /** `line.split('\t')` into exactly two fields, the second read back as a map; the
      header's second field is not a map. Anything else makes the script raise. */
  function ParseLine(l: LogLine): Option<(string, Counts)>
  {
    match l
    case Header => None
    case Record(tag, entries) => if '\t' in tag then None else Some((tag, ToMap(entries)))
  }

  /** What a flush reads from the log: the date and map of the day record, and the map
      of the total record, from the last two lines. */
  datatype LastTwo = LastTwo(date: string, day: Counts, total: Counts)

  function ReadLast(lines: seq<LogLine>): (r: Option<LastTwo>)
    ensures r.Some? ==> |lines| >= 2 && lines[|lines| - 2].Record? && lines[|lines| - 1].Record?
  {
    if |lines| < 2 then None
    else
      var day, total := ParseLine(lines[|lines| - 2]), ParseLine(lines[|lines| - 1]);
      if day.Some? && total.Some? then Some(LastTwo(day.value.0, day.value.1, total.value.1))
      else None
  }

  /** The lines after a flush dated `nowDate` that read `date` from the day record and
      reconciled to the day map `day` and the totals `total`: earlier lines untouched;
      same day, the last two lines become the day map dated now and the totals; new
      day, the day record keeps its date, an empty record dated now follows, and the
      totals come last. */
  ghost predicate Rewritten(before: seq<LogLine>, after: seq<LogLine>, date: string, nowDate: string,
                            day: Counts, total: Counts)
    requires |before| >= 2
  {
    var n := |before|;
    if Prefix(date, 10) == Prefix(nowDate, 10) then
      && |after| == n && after[..n - 2] == before[..n - 2]
      && after[n - 2].Record? && after[n - 2].tag == nowDate && Serialises(after[n - 2].entries, day)
      && after[n - 1].Record? && after[n - 1].tag == TotalLabel && Serialises(after[n - 1].entries, total)
    else
      && |after| == n + 1 && after[..n - 2] == before[..n - 2]
      && after[n - 2].Record? && after[n - 2].tag == date && Serialises(after[n - 2].entries, day)
      && after[n - 1] == Record(nowDate, [])
      && after[n].Record? && after[n].tag == TotalLabel && Serialises(after[n].entries, total)
  }

  /** The next flush reads back what this one wrote: the totals, and the day map under
      the current date (the empty map, on a new day). */
  lemma FlushReadBack(before: seq<LogLine>, after: seq<LogLine>, date: string, nowDate: string,
                      day: Counts, total: Counts)
    requires |before| >= 2 && '\t' !in nowDate && '\t' !in date
    requires Rewritten(before, after, date, nowDate, day, total)
    ensures ReadLast(after)
         == Some(LastTwo(nowDate, if Prefix(date, 10) == Prefix(nowDate, 10) then day else map[], total))
  {
    var n := |before|;
    TotalLabelIsOneField();
    if Prefix(date, 10) == Prefix(nowDate, 10) {
      assert ParseLine(after[n - 2]) == Some((nowDate, day));
      assert ParseLine(after[n - 1]) == Some((TotalLabel, total));
    } else {
      assert ParseLine(after[n - 1]) == Some((nowDate, map[]));
      assert ParseLine(after[n]) == Some((TotalLabel, total));
    }
  }

  lemma TotalLabelIsOneField()
    ensures '\t' !in TotalLabel
  {
  }

  /** The log a new logger starts from: a log of fewer than two lines is replaced by
      the header, an empty record dated at start-up and an empty total record. */
  function Seeded(existing: seq<LogLine>, date: string): (ls: seq<LogLine>)
  {
    if |existing| < 2 then [Header, Record(date, []), Record(TotalLabel, [])] else existing
  }

  /** A seeded log reads as an empty day and empty totals. */
  lemma SeedingReadsEmpty(existing: seq<LogLine>, date: string)
    requires |existing| < 2 && '\t' !in date
    ensures ReadLast(Seeded(existing, date)) == Some(LastTwo(date, map[], map[]))
  {
  }

  datatype TickOutcome =
    | Waiting   // the flush gate is closed
    | Crashed   // the last two lines are missing or malformed: the script raises and stops
    | Flushed   // the records were updated

  /** The keystroke logger: the in-memory press counts, the log's lines and the time
      of the last flush. */
  class KeyboardMonitor {
    var keymap: Counts
    var lines: seq<LogLine>
    var lastChecked: int

    /** Every count held in memory is positive. */
    predicate Valid()
      reads this
    {
      AllPositive(keymap)
    }

    /** Start-up: seed a short log, start with no presses counted. */
    constructor (existing: seq<LogLine>, start: int, startDate: string)
      ensures lines == Seeded(existing, startDate)
      ensures keymap == map[] && lastChecked == start
      ensures Valid()
    {
      var ls := existing;
      if |ls| < 2 {
        ls := [Header, Record(startDate, []), Record(TotalLabel, [])];
      }
      lines := ls;
      keymap := map[];
      lastChecked := start;
    }

    /** The listener's callback for a press of the key labelled `key`. */
    method OnPress(key: string)
      requires Valid()
      modifies this`keymap
      ensures keymap == Press(old(keymap), key)
      ensures Valid()
    {
      if key !in keymap {
        keymap := keymap[key := 0];
      }
      keymap := keymap[key := keymap[key] + 1];
      ghost var pressed := keymap;
      assert pressed == old(keymap)[key := Get(old(keymap), key) + 1];
      if TotalKey !in keymap {
        keymap := keymap[TotalKey := 0];
      }
      keymap := keymap[TotalKey := keymap[TotalKey] + 1];
      assert keymap == pressed[TotalKey := Get(pressed, TotalKey) + 1];
      PressKeepsPositive(old(keymap), key);
    }

    /** The reconciliation of a flush: compares the in-memory map with the day record
        `mlast` and gives the new totals; rebases the in-memory map after a reboot. */
    method ReconcileCounts(mlast: Counts, mtotal: Counts) returns (total: Counts)
      requires Valid()
      modifies this`keymap
      ensures Valid()
      ensures keymap == Reconcile(old(keymap), mlast, mtotal).keymap
      ensures total == Reconcile(old(keymap), mlast, mtotal).total
    {
      var gt := DictGt(keymap, mlast);
      var delta;
      if gt {
        delta := DictSub(keymap, mlast);
      } else {
        delta := keymap;
        keymap := DictAdd(keymap, mlast);
      }
      total := DictAdd(mtotal, delta);
    }

    /** The rewrite of a flush: the last two lines replaced as `Rewritten` says, the
        in-memory map emptied on a new day. */
    method WriteRecords(date: string, nowDate: string, day: Counts, total: Counts)
      requires Valid() && |lines| >= 2
      modifies this`lines, this`keymap
      ensures Valid()
      ensures Rewritten(old(lines), lines, date, nowDate, day, total)
      ensures keymap == if Prefix(date, 10) == Prefix(nowDate, 10) then old(keymap) else map[]
    {
      var dayEntries := SortByCount(day);
      var totalEntries := SortByCount(total);
      var n := |lines|;
      if Prefix(date, 10) == Prefix(nowDate, 10) {
        lines := lines[n - 2 := Record(nowDate, dayEntries)];
        lines := lines[n - 1 := Record(TotalLabel, totalEntries)];
      } else {
        lines := lines[n - 2 := Record(date, dayEntries)];
        lines := lines[n - 1 := Record(nowDate, [])];
        lines := lines + [Record(TotalLabel, totalEntries)];
        keymap := map[];
      }
    }

    /** The body of the flush, dated `nowDate`: read the last two lines (the script
        raises when they are missing or malformed, and nothing changes), reconcile, and
        rewrite. */
    method Flush(nowDate: string) returns (flushed: bool)
      requires Valid()
      modifies this`lines, this`keymap
      ensures Valid()
      ensures flushed <==> ReadLast(old(lines)).Some?
      ensures !flushed ==> lines == old(lines) && keymap == old(keymap)
      ensures flushed ==>
        var last := ReadLast(old(lines)).value;
        var r := Reconcile(old(keymap), last.day, last.total);
        && Rewritten(old(lines), lines, last.date, nowDate, r.keymap, r.total)
        && keymap == if Prefix(last.date, 10) == Prefix(nowDate, 10) then r.keymap else map[]
    {
      if |lines| < 2 {
        return false;
      }
      var day, total := ParseLine(lines[|lines| - 2]), ParseLine(lines[|lines| - 1]);
      if day.None? || total.None? {
        return false;
      }
      var lastDate, mlast := day.value.0, day.value.1;
      var mtotal := total.value.1;
      var newTotal := ReconcileCounts(mlast, mtotal);
      WriteRecords(lastDate, nowDate, keymap, newTotal);
      flushed := true;
    }

    /** One pass of the polling loop at time `now`, `tts` the local date formatter. */
    method Tick(now: int, tts: int -> string) returns (o: TickOutcome)
      requires Valid()
      modifies this
      ensures Valid()
      ensures o == Waiting <==> !FlushDue(now, old(lastChecked), tts, Interval, FlushInterval)
      ensures lastChecked == if o == Waiting then old(lastChecked) else now
      ensures o == Crashed <==> o != Waiting && ReadLast(old(lines)).None?
      ensures o != Flushed ==> lines == old(lines) && keymap == old(keymap)
      ensures o == Flushed ==>
        var last := ReadLast(old(lines)).value;
        var r := Reconcile(old(keymap), last.day, last.total);
        && Rewritten(old(lines), lines, last.date, tts(now), r.keymap, r.total)
        && keymap == if Prefix(last.date, 10) == Prefix(tts(now), 10) then r.keymap else map[]
    {
      if !FlushDue(now, lastChecked, tts, Interval, FlushInterval) {
        return Waiting;
      }
      lastChecked := now;
      assert lines == old(lines) && keymap == old(keymap);
      var flushed := Flush(tts(now));
      o := if flushed then Flushed else Crashed;
    }
  }
}
