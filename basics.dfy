/** Shared vocabulary of the three monitoring scripts: the Python string operations
    they rely on (slicing a prefix, `str.split`, `'\t'.join`, `readlines`, the
    whitespace that `int()` tolerates, format padding) and the day-boundary flush
    gate that the traffic and keyboard loops share. */
module Basics {

  datatype Option<T> = None | Some(value: T)

  /** Python's `s[:n]`: the first `n` characters, or all of `s` when it is shorter. */
  function Prefix(s: string, n: nat): (r: string)
    ensures |r| == if |s| < n then |s| else n
    ensures r <= s
  {
    if |s| <= n then s else s[..n]
  }

  /** The month prefix `[:7]` lies inside the day prefix `[:10]`: two dates with the
      same day string have the same month string, so a month change is a day change. */
  lemma {:induction false} SameDaySameMonth(a: string, b: string)
    requires Prefix(a, 10) == Prefix(b, 10)
    ensures Prefix(a, 7) == Prefix(b, 7)
  {
    assert Prefix(a, 7) == Prefix(Prefix(a, 10), 7);
    assert Prefix(b, 7) == Prefix(Prefix(b, 10), 7);
  }

  function Spaces(n: nat): (r: string)
    ensures |r| == n && forall i :: 0 <= i < n ==> r[i] == ' '
  {
    seq(n, _ => ' ')
  }

  /** `'{: >w}'.format(s)`: right-aligned in a field of at least `w` characters. */
  function PadLeft(s: string, w: nat): (r: string)
    ensures |r| == if |s| < w then w else |s|
  {
    if |s| >= w then s else Spaces(w - |s|) + s
  }

  /** `'{: <w}'.format(s)`: left-aligned in a field of at least `w` characters. */
  function PadRight(s: string, w: nat): (r: string)
    ensures |r| == if |s| < w then w else |s|
  {
    if |s| >= w then s else s + Spaces(w - |s|)
  }

  /** C's `isspace`, which Python 2's `int()` skips around a number:
      space, tab, newline, vertical tab, form feed, carriage return. */
  predicate IsSpace(c: char)
  {
    c == ' ' || '\t' <= c <= '\r'
  }

  predicate AllSpace(s: string)
  {
    forall i :: 0 <= i < |s| ==> IsSpace(s[i])
  }

  /** A character that is not whitespace is absent from whitespace. */
  lemma SpacesAvoid(s: string, c: char)
    requires AllSpace(s) && !IsSpace(c)
    ensures c !in s
  {
    forall i | 0 <= i < |s| ensures s[i] != c {
      assert IsSpace(s[i]);
    }
  }

  function StripLeft(s: string): (r: string)
    ensures |r| <= |s|
  {
    if |s| > 0 && IsSpace(s[0]) then StripLeft(s[1..]) else s
  }

  function StripRight(s: string): (r: string)
    ensures r <= s
  {
    if |s| > 0 && IsSpace(s[|s| - 1]) then StripRight(s[..|s| - 1]) else s
  }

  /** `s.strip()` with C whitespace. */
  function Strip(s: string): string
  {
    StripRight(StripLeft(s))
  }

  /** Surrounding whitespace is removed and nothing else: a string that neither starts
      nor ends with whitespace comes back unchanged from any whitespace wrapping. */
  lemma {:induction false} StripAround(pre: string, s: string, post: string)
    requires AllSpace(pre) && AllSpace(post)
    requires |s| > 0 && !IsSpace(s[0]) && !IsSpace(s[|s| - 1])
    ensures Strip(pre + s + post) == s
  {
    StripLeftSpaces(pre, s + post);
    assert pre + s + post == pre + (s + post);
    StripRightSpaces(s, post);
  }

  lemma {:induction false} StripLeftSpaces(pre: string, s: string)
    requires AllSpace(pre)
    requires |s| > 0 && !IsSpace(s[0])
    ensures StripLeft(pre + s) == s
    decreases |pre|
  {
    if pre == [] {
      assert pre + s == s;
    } else {
      assert (pre + s)[1..] == pre[1..] + s;
      StripLeftSpaces(pre[1..], s);
    }
  }

  lemma {:induction false} StripRightSpaces(s: string, post: string)
    requires AllSpace(post)
    requires |s| > 0 && !IsSpace(s[|s| - 1])
    ensures StripRight(s + post) == s
    decreases |post|
  {
    if post == [] {
      assert s + post == s;
    } else {
      assert (s + post)[..|s + post| - 1] == s + post[..|post| - 1];
      StripRightSpaces(s, post[..|post| - 1]);
    }
  }

  /** Python's `s.split(sep)` for a one-character separator: the pieces between
      separators, always at least one (the empty string splits into `[""]`). */
  function Split(s: string, sep: char): (r: seq<string>)
    ensures |r| >= 1
    decreases |s|
  {
    if s == [] then [[]]
    else
      var tail := Split(s[1..], sep);
      if s[0] == sep then [[]] + tail
      else [[s[0]] + tail[0]] + tail[1..]
  }

  /** Python's `sep.join(fields)` for a one-character separator. */
  function Join(fields: seq<string>, sep: char): string
  {
    if |fields| == 0 then []
    else if |fields| == 1 then fields[0]
    else fields[0] + [sep] + Join(fields[1..], sep)
  }

  lemma Join3(a: string, b: string, c: string, sep: char)
    ensures Join([a, b, c], sep) == a + [sep] + b + [sep] + c
  {
    assert [a, b, c][1..] == [b, c];
    assert [b, c][1..] == [c];
    assert Join([b, c], sep) == b + [sep] + c;
    assert a + [sep] + (b + [sep] + c) == a + [sep] + b + [sep] + c;
  }

  predicate NoneContains(fields: seq<string>, c: char)
  {
    forall i :: 0 <= i < |fields| ==> c !in fields[i]
  }

  /** Splitting a join gives back the fields, provided none holds the separator. */
  lemma {:induction false} SplitJoin(fields: seq<string>, sep: char)
    requires |fields| >= 1 && NoneContains(fields, sep)
    ensures Split(Join(fields, sep), sep) == fields
    decreases |fields|
  {
    if |fields| == 1 {
      SplitNoSeparator(fields[0], sep);
    } else {
      SplitJoin(fields[1..], sep);
      SplitAtFirst(fields[0], sep, Join(fields[1..], sep));
      assert [fields[0]] + fields[1..] == fields;
    }
  }

  lemma {:induction false} SplitNoSeparator(s: string, sep: char)
    requires sep !in s
    ensures Split(s, sep) == [s]
    decreases |s|
  {
    if s != [] {
      assert s[0] != sep && sep !in s[1..];
      SplitNoSeparator(s[1..], sep);
      assert [s[0]] + s[1..] == s;
    }
  }

  lemma {:induction false} SplitAtFirst(a: string, sep: char, rest: string)
    requires sep !in a
    ensures Split(a + [sep] + rest, sep) == [a] + Split(rest, sep)
    decreases |a|
  {
    if a == [] {
      assert (a + [sep] + rest)[1..] == rest;
    } else {
      assert (a + [sep] + rest)[1..] == a[1..] + [sep] + rest;
      SplitAtFirst(a[1..], sep, rest);
      assert [a[0]] + a[1..] == a;
    }
  }

  /** No piece of a split holds the separator. */
  lemma {:induction false} SplitPiecesAvoid(s: string, sep: char)
    ensures NoneContains(Split(s, sep), sep)
    decreases |s|
  {
    if s != [] {
      SplitPiecesAvoid(s[1..], sep);
    }
  }

  /** A character absent from every field and distinct from the separator is absent
      from the join. */
  lemma {:induction false} JoinAvoids(fields: seq<string>, sep: char, c: char)
    requires c != sep && NoneContains(fields, c)
    ensures c !in Join(fields, sep)
    decreases |fields|
  {
    if |fields| > 1 {
      JoinAvoids(fields[1..], sep, c);
    }
  }

  /** Extending the last field with text free of `c` keeps every field free of `c`. */
  lemma LastExtendedAvoids(fields: seq<string>, suffix: string, c: char)
    requires |fields| >= 1 && NoneContains(fields, c) && c !in suffix
    ensures NoneContains(fields[..|fields| - 1] + [fields[|fields| - 1] + suffix], c)
  {
    var q := fields[..|fields| - 1] + [fields[|fields| - 1] + suffix];
    forall i | 0 <= i < |q| ensures c !in q[i] {
      if i < |fields| - 1 {
        assert q[i] == fields[i];
      }
    }
  }

  /** Appending to a join lengthens its last field. */
  lemma {:induction false} JoinAppend(fields: seq<string>, sep: char, suffix: string)
    requires |fields| >= 1
    ensures Join(fields, sep) + suffix
         == Join(fields[..|fields| - 1] + [fields[|fields| - 1] + suffix], sep)
    decreases |fields|
  {
    var last := fields[..|fields| - 1] + [fields[|fields| - 1] + suffix];
    if |fields| > 1 {
      JoinAppend(fields[1..], sep, suffix);
      assert last[1..] == fields[1..][..|fields[1..]| - 1] + [fields[1..][|fields[1..]| - 1] + suffix];
    }
  }

  /** Python's `f.readlines()` on the file text: every line keeps its `'\n'`; a final
      piece without one is a line too. */
  function ReadLines(s: string): (r: seq<string>)
    decreases |s|
  {
    if s == [] then []
    else
      var rest := ReadLines(s[1..]);
      if s[0] == '\n' then [['\n']] + rest
      else if rest == [] then [[s[0]]]
      else [[s[0]] + rest[0]] + rest[1..]
  }

  /** A line as `readlines` returns it: text without newlines, then one `'\n'`. */
  predicate IsLine(l: string)
  {
    |l| > 0 && l[|l| - 1] == '\n' && '\n' !in l[..|l| - 1]
  }

  lemma {:induction false} ReadLinesAfterLine(l: string, rest: string)
    requires IsLine(l)
    ensures ReadLines(l + rest) == [l] + ReadLines(rest)
    decreases |l|
  {
    if |l| == 1 {
      assert l == ['\n'] && (l + rest)[1..] == rest;
    } else {
      assert (l + rest)[1..] == l[1..] + rest;
      assert l[1..][..|l[1..]| - 1] == l[..|l| - 1][1..];
      ReadLinesAfterLine(l[1..], rest);
      assert [l[0]] + l[1..] == l;
    }
  }

  /** Writing `w` at offset 0 of a file holding `text` without truncating it. */
  function Overwrite(text: string, w: string): (r: string)
    ensures |r| == if |text| <= |w| then |w| else |text|
    ensures w <= r
  {
    if |text| <= |w| then w else w + text[|w|..]
  }

  /** Two lines written over the start of a file without truncating it read back as
      themselves, then the lines of whatever of the old text lies beyond them. */
  lemma OverwriteLines(text: string, h: string, f: string)
    requires IsLine(h) && IsLine(f)
    ensures ReadLines(Overwrite(text, h + f))
         == [h, f] + ReadLines(if |text| <= |h + f| then [] else text[|h + f|..])
  {
    var tail := if |text| <= |h + f| then [] else text[|h + f|..];
    assert Overwrite(text, h + f) == h + (f + tail);
    ReadLinesAfterLine(h, f + tail);
    ReadLinesAfterLine(f, tail);
  }

  /** The traffic and keyboard flush gate: a flush is due once `flushInterval` seconds
      have passed since the last one, or when the day string of `now` differs from
      that of the previous tick `now - interval`. `tts` is the local-time formatter.
      A change of month string always opens it, being a change of day string too. */
  predicate FlushDue(now: int, lastChecked: int, tts: int -> string, interval: int, flushInterval: int): (due: bool)
    ensures Prefix(tts(now), 7) != Prefix(tts(now - interval), 7) ==> due
  {
    now >= lastChecked + flushInterval || Prefix(tts(now), 10) != Prefix(tts(now - interval), 10)
  }
}
