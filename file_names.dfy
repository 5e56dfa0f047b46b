/**
 * Snapshot file names `<dir>/<model>.<YYYYMMDD>.<HH>.<metric>.csv`: splitting on '.',
 * the run key (fields 1 and 2), and the issue datetime built from those two fields.
 */
module FileNames {
  import opened Wrappers

  // ---------------------------------------------------------------------------
  // str.split / str.join

  /** Python's `s.split(sep)`: the separator-free pieces of `s`, in order (never empty). */
  function Split(s: string, sep: char): (parts: seq<string>)
    ensures |parts| >= 1
    ensures forall k :: 0 <= k < |parts| ==> sep !in parts[k]
    decreases |s|
  {
    if |s| == 0 then [""]
    else
      var rest := Split(s[1..], sep);
      if s[0] == sep then [""] + rest
      else [[s[0]] + rest[0]] + rest[1..]
  }

  /** Python's `sep.join(parts)`, the inverse of Split. */
  function Join(parts: seq<string>, sep: char): string
    requires |parts| >= 1
    decreases |parts|
  {
    if |parts| == 1 then parts[0] else parts[0] + [sep] + Join(parts[1..], sep)
  }

  /** Splitting gives one more piece than the string has separators. */
  lemma {:induction false} SplitCount(s: string, sep: char)
    ensures |Split(s, sep)| == multiset(s)[sep] + 1
    decreases |s|
  {
    if |s| > 0 {
      SplitCount(s[1..], sep);
      assert s == [s[0]] + s[1..];
    }
  }

  lemma {:induction false} JoinSplit(s: string, sep: char)
    ensures Join(Split(s, sep), sep) == s
    decreases |s|
  {
    if |s| > 0 {
      JoinSplit(s[1..], sep);
      var rest := Split(s[1..], sep);
      if s[0] == sep {
        assert s == [s[0]] + s[1..];
      } else {
        if |rest| == 1 {
          assert s == [s[0]] + s[1..];
        } else {
          assert Join(rest, sep) == rest[0] + [sep] + Join(rest[1..], sep);
          assert s == [s[0]] + s[1..];
        }
      }
    }
  }

  /** Splitting a piece without separators, followed by a separator and more text. */
  lemma {:induction false} SplitPiece(a: string, rest: string, sep: char)
    requires sep !in a
    ensures Split(a + [sep] + rest, sep) == [a] + Split(rest, sep)
    decreases |a|
  {
    if |a| == 0 {
      assert a + [sep] + rest == [sep] + rest;
      assert ([sep] + rest)[1..] == rest;
    } else {
      var s := a + [sep] + rest;
      assert s[0] == a[0] && s[1..] == a[1..] + [sep] + rest;
      SplitPiece(a[1..], rest, sep);
      assert [a[0]] + a[1..] == a;
    }
  }

  /** A piece without separators splits to itself. */
  lemma {:induction false} SplitWhole(a: string, sep: char)
    requires sep !in a
    ensures Split(a, sep) == [a]
    decreases |a|
  {
    if |a| > 0 {
      SplitWhole(a[1..], sep);
      assert [a[0]] + a[1..] == a;
    }
  }

  lemma {:induction false} SplitJoin(parts: seq<string>, sep: char)
    requires |parts| >= 1
    requires forall k :: 0 <= k < |parts| ==> sep !in parts[k]
    ensures Split(Join(parts, sep), sep) == parts
    decreases |parts|
  {
    if |parts| == 1 {
      SplitWhole(parts[0], sep);
    } else {
      SplitJoin(parts[1..], sep);
      SplitPiece(parts[0], Join(parts[1..], sep), sep);
      assert [parts[0]] + parts[1..] == parts;
    }
  }

  // ---------------------------------------------------------------------------
  // Run identity

  /** The run key `(date, time)` of a snapshot, as the two raw fields of its name. */
  datatype RunKey = RunKey(date: string, hour: string)

  /**
   * `extract_date_time`: fields 1 and 2 of the name split on '.'; `None` when the name has
   * fewer than three fields (the source's `parts[1]`/`parts[2]` raise IndexError). A key exists
   * exactly when the name holds at least two dots, and neither of its fields holds one.
   */
  function ExtractDateTime(name: string): (k: Option<RunKey>)
    ensures k.Some? <==> multiset(name)['.'] >= 2
    ensures k.Some? ==> '.' !in k.value.date && '.' !in k.value.hour
  {
    var parts := Split(name, '.');
    SplitCount(name, '.');
    if |parts| < 3 then None else Some(RunKey(parts[1], parts[2]))
  }

  /** The file name the catalog globs for: `<prefix>.<date>.<hour>.<metric>.csv`. */
  function SnapshotName(prefix: string, key: RunKey, metric: string): string
  {
    Join([prefix, key.date, key.hour, metric, "csv"], '.')
  }

  /** The fields that make up a snapshot name carry no '.' of their own. */
  predicate DotFree(prefix: string, key: RunKey, metric: string)
  {
    '.' !in prefix && '.' !in key.date && '.' !in key.hour && '.' !in metric
  }

  /** Parsing the run key back out of a globbed name recovers the key it was built from. */
  lemma ExtractDateTimeOfName(prefix: string, key: RunKey, metric: string)
    requires DotFree(prefix, key, metric)
    ensures ExtractDateTime(SnapshotName(prefix, key, metric)) == Some(key)
  {
    var parts := [prefix, key.date, key.hour, metric, "csv"];
    assert forall k :: 0 <= k < |parts| ==> '.' !in parts[k];
    SplitJoin(parts, '.');
  }

  /** Two snapshot names share a run key exactly when their date and hour fields agree. */
  lemma SameRunIff(p1: string, k1: RunKey, m1: string, p2: string, k2: RunKey, m2: string)
    requires DotFree(p1, k1, m1) && DotFree(p2, k2, m2)
    ensures ExtractDateTime(SnapshotName(p1, k1, m1)) == ExtractDateTime(SnapshotName(p2, k2, m2))
            <==> k1.date == k2.date && k1.hour == k2.hour
  {
    ExtractDateTimeOfName(p1, k1, m1);
    ExtractDateTimeOfName(p2, k2, m2);
  }

  // ---------------------------------------------------------------------------
  // Digits, dates and the issue datetime

  predicate IsDigit(c: char) { '0' <= c <= '9' }

  predicate AllDigits(s: string) { forall k :: 0 <= k < |s| ==> IsDigit(s[k]) }

  function DigitValue(c: char): nat
    requires IsDigit(c)
  {
    c as int - '0' as int
  }

  function Pow10(n: nat): (p: nat)
    ensures p >= 1
  {
    if n == 0 then 1 else 10 * Pow10(n - 1)
  }

  /** The decimal value of a digit string, most significant digit first. */
  function DigitsValue(s: string): nat
    requires AllDigits(s)
    decreases |s|
  {
    if |s| == 0 then 0 else DigitValue(s[0]) * Pow10(|s| - 1) + DigitsValue(s[1..])
  }

  datatype Date = Date(year: nat, month: nat, day: nat)

  /** A `datetime` with minute, second and microsecond 0 (`time(hour, 0)`). */
  datatype DateTime = DateTime(date: Date, hour: nat)

  predicate IsLeapYear(y: nat) { y % 4 == 0 && (y % 100 != 0 || y % 400 == 0) }

  function DaysInMonth(y: nat, m: nat): nat
  {
    if m == 2 then (if IsLeapYear(y) then 29 else 28)
    else if m == 4 || m == 6 || m == 9 || m == 11 then 30
    else 31
  }

  /** `datetime.strptime(s, '%Y%m%d')` on the eight-digit form; `None` for a ValueError. */
  function ParseDate(s: string): (d: Option<Date>)
    ensures d.Some? ==> ValidDate(d.value)
  {
    if |s| == 8 && AllDigits(s) then
      var y, m, d := DigitsValue(s[..4]), DigitsValue(s[4..6]), DigitsValue(s[6..]);
      if 1 <= y && 1 <= m <= 12 && 1 <= d <= DaysInMonth(y, m) then
        assert y < Pow10(4) by { DigitsBound(s[..4]); assert Pow10(4) == 10000; }
        Some(Date(y, m, d))
      else None
    else None
  }

  /** `time(int(s), 0)`: a non-empty digit string below 24; `None` for a ValueError. */
  function ParseHour(s: string): (h: Option<nat>)
    ensures h.Some? ==> h.value < 24
  {
    if |s| > 0 && AllDigits(s) && DigitsValue(s) < 24 then Some(DigitsValue(s)) else None
  }

  /**
   * `get_date`: the issue datetime combined from the date field and the hour field of the
   * name (the frame argument is unused by the source). `None` where the source raises, which
   * is exactly when the name has no key or one of its two fields does not parse.
   */
  function GetDate(name: string): (t: Option<DateTime>)
    ensures t.Some? <==> && ExtractDateTime(name).Some?
                         && ParseDate(ExtractDateTime(name).value.date).Some?
                         && ParseHour(ExtractDateTime(name).value.hour).Some?
    ensures t.Some? ==> ParseDate(ExtractDateTime(name).value.date) == Some(t.value.date)
    ensures t.Some? ==> ParseHour(ExtractDateTime(name).value.hour) == Some(t.value.hour)
  {
    match ExtractDateTime(name)
    case None => None
    case Some(k) =>
      match ParseDate(k.date)
      case None => None
      case Some(d) =>
        match ParseHour(k.hour)
        case None => None
        case Some(h) => Some(DateTime(d, h))
  }

  // ---------------------------------------------------------------------------
  // Writing dates and hours back as fields

  /** A date `strptime('%Y%m%d')` accepts: year 1 to 9999, a month, a day of that month. */
  predicate ValidDate(d: Date)
  {
    1 <= d.year <= 9999 && 1 <= d.month <= 12 && 1 <= d.day <= DaysInMonth(d.year, d.month)
  }

  function DigitChar(n: nat): (c: char)
    requires n < 10
    ensures IsDigit(c) && DigitValue(c) == n
  {
    ('0' as int + n) as char
  }

  /** `n` written with exactly `width` decimal digits, zero-padded on the left. */
  function Pad(n: nat, width: nat): (s: string)
    ensures |s| == width && AllDigits(s)
    decreases width
  {
    if width == 0 then "" else Pad(n / 10, width - 1) + [DigitChar(n % 10)]
  }

  /** The eight-character date field of a file name issued on `d`. */
  function DateField(d: Date): (s: string)
    ensures |s| == 8 && AllDigits(s)
  {
    Pad(d.year, 4) + Pad(d.month, 2) + Pad(d.day, 2)
  }

  lemma MulLe(a: nat, b: nat, p: nat)
    requires a <= b
    ensures a * p <= b * p
  {
    assert b * p == a * p + (b - a) * p;
  }

  lemma MulTen(d: nat, p: nat)
    ensures d * (10 * p) == 10 * (d * p)
  {
  }

  lemma {:induction false} DigitsBound(s: string)
    requires AllDigits(s)
    ensures DigitsValue(s) < Pow10(|s|)
    decreases |s|
  {
    if |s| > 0 {
      DigitsBound(s[1..]);
      var d, p := DigitValue(s[0]), Pow10(|s| - 1);
      assert DigitsValue(s) == d * p + DigitsValue(s[1..]);
      MulLe(d, 9, p);
      assert Pow10(|s|) == 10 * p;
    }
  }

  /** Appending a digit multiplies the value by ten and adds the digit. */
  lemma {:induction false} DigitsValueSnoc(s: string, c: char)
    requires AllDigits(s) && IsDigit(c)
    ensures AllDigits(s + [c]) && DigitsValue(s + [c]) == 10 * DigitsValue(s) + DigitValue(c)
    decreases |s|
  {
    if |s| == 0 {
      assert s + [c] == [c] && [c][1..] == [];
    } else {
      assert (s + [c])[0] == s[0] && (s + [c])[1..] == s[1..] + [c];
      DigitsValueSnoc(s[1..], c);
      var d, p := DigitValue(s[0]), Pow10(|s| - 1);
      assert Pow10(|s + [c]| - 1) == 10 * p;
      MulTen(d, p);
    }
  }

  /** Reading back a padded value below `10^width` gives the value. */
  lemma {:induction false} PadValue(n: nat, width: nat)
    requires n < Pow10(width)
    ensures DigitsValue(Pad(n, width)) == n
    decreases width
  {
    if width > 0 {
      PadValue(n / 10, width - 1);
      DigitsValueSnoc(Pad(n / 10, width - 1), DigitChar(n % 10));
    }
  }

  /** A digit string is the padding of its own value to its own length. */
  lemma {:induction false} PadOfDigits(s: string)
    requires AllDigits(s)
    ensures Pad(DigitsValue(s), |s|) == s
    decreases |s|
  {
    if |s| > 0 {
      var init, c := s[..|s| - 1], s[|s| - 1];
      assert s == init + [c];
      DigitsValueSnoc(init, c);
      PadOfDigits(init);
      var v := DigitsValue(s);
      assert v / 10 == DigitsValue(init) && v % 10 == DigitValue(c);
      assert DigitChar(DigitValue(c)) == c;
    }
  }

  /** Parsing the field written for a valid date gives that date back. */
  lemma ParseDateField(d: Date)
    requires ValidDate(d)
    ensures ParseDate(DateField(d)) == Some(d)
  {
    var s := DateField(d);
    assert s[..4] == Pad(d.year, 4) && s[4..6] == Pad(d.month, 2) && s[6..] == Pad(d.day, 2);
    assert Pow10(2) == 100 && Pow10(4) == 10000;
    PadValue(d.year, 4);
    PadValue(d.month, 2);
    PadValue(d.day, 2);
  }

  /** A date field that parses is the field written for the parsed date: no other string gives it. */
  lemma DateFieldOfParse(s: string)
    requires ParseDate(s).Some?
    ensures DateField(ParseDate(s).value) == s
  {
    PadOfDigits(s[..4]);
    PadOfDigits(s[4..6]);
    PadOfDigits(s[6..]);
    assert s == s[..4] + s[4..6] + s[6..];
  }

  /** `int()` of the two-digit field of an hour below 24 gives that hour back. */
  lemma ParseHourField(h: nat)
    requires h < 24
    ensures ParseHour(Pad(h, 2)) == Some(h)
  {
    assert Pow10(2) == 100;
    PadValue(h, 2);
  }

  /** An hour field that parses is the padding of the parsed hour to the field's length. */
  lemma HourFieldOfParse(s: string)
    requires ParseHour(s).Some?
    ensures Pad(ParseHour(s).value, |s|) == s
  {
    PadOfDigits(s);
  }

  /** The file of the run issued at `d`, hour `h`, dates back to exactly that datetime. */
  lemma GetDateOfName(prefix: string, d: Date, h: nat, metric: string)
    requires ValidDate(d) && h < 24 && '.' !in prefix && '.' !in metric
    ensures GetDate(SnapshotName(prefix, RunKey(DateField(d), Pad(h, 2)), metric)) == Some(DateTime(d, h))
  {
    var key := RunKey(DateField(d), Pad(h, 2));
    assert '.' !in key.date && '.' !in key.hour by {
      assert !IsDigit('.');
    }
    ExtractDateTimeOfName(prefix, key, metric);
    ParseDateField(d);
    ParseHourField(h);
  }
}
