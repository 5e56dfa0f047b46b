/**
 * Python's ordering of run keys (tuples of strings compared lexicographically) and its
 * agreement with the chronological order of the issue datetimes the keys denote.
 */
module Chronology {
  import opened Wrappers
  import opened FileNames

  /** Python's `s < t` on strings: lexicographic by character, a proper prefix first. */
  predicate StrLt(s: string, t: string)
    decreases |s|
  {
    if |s| == 0 then |t| > 0
    else if |t| == 0 then false
    else s[0] < t[0] || (s[0] == t[0] && StrLt(s[1..], t[1..]))
  }

  /** Python's `<` on the sort key `(date, hour)`. */
  predicate KeyLt(a: RunKey, b: RunKey)
  {
    StrLt(a.date, b.date) || (a.date == b.date && StrLt(a.hour, b.hour))
  }

  predicate KeyLe(a: RunKey, b: RunKey) { KeyLt(a, b) || a == b }

  /** Chronological order of issue datetimes. */
  predicate Before(x: DateTime, y: DateTime)
  {
    x.date.year < y.date.year
    || (x.date.year == y.date.year && x.date.month < y.date.month)
    || (x.date.year == y.date.year && x.date.month == y.date.month && x.date.day < y.date.day)
    || (x.date == y.date && x.hour < y.hour)
  }

  // ---------------------------------------------------------------------------
  // StrLt is a strict total order

  lemma {:induction false} StrLtIrreflexive(s: string)
    ensures !StrLt(s, s)
    decreases |s|
  {
    if |s| > 0 { StrLtIrreflexive(s[1..]); }
  }

  lemma {:induction false} StrLtTransitive(s: string, t: string, u: string)
    requires StrLt(s, t) && StrLt(t, u)
    ensures StrLt(s, u)
    decreases |s|
  {
    if |s| > 0 && s[0] == t[0] && t[0] == u[0] {
      StrLtTransitive(s[1..], t[1..], u[1..]);
    }
  }

  lemma {:induction false} StrLtTrichotomy(s: string, t: string)
    ensures StrLt(s, t) || s == t || StrLt(t, s)
    decreases |s|
  {
    if |s| > 0 && |t| > 0 && s[0] == t[0] {
      StrLtTrichotomy(s[1..], t[1..]);
      if s[1..] == t[1..] {
        assert s == [s[0]] + s[1..] && t == [t[0]] + t[1..];
      }
    }
  }

  lemma KeyLtIrreflexive(a: RunKey)
    ensures !KeyLt(a, a)
  {
    StrLtIrreflexive(a.date);
    StrLtIrreflexive(a.hour);
  }

  lemma KeyLtTransitive(a: RunKey, b: RunKey, c: RunKey)
    requires KeyLt(a, b) && KeyLt(b, c)
    ensures KeyLt(a, c)
  {
    if StrLt(a.date, b.date) && StrLt(b.date, c.date) {
      StrLtTransitive(a.date, b.date, c.date);
    } else if a.date == b.date && b.date == c.date {
      StrLtTransitive(a.hour, b.hour, c.hour);
    }
  }

  lemma KeyLtTrichotomy(a: RunKey, b: RunKey)
    ensures KeyLt(a, b) || a == b || KeyLt(b, a)
  {
    StrLtTrichotomy(a.date, b.date);
    StrLtTrichotomy(a.hour, b.hour);
  }

  lemma KeyLtAsymmetric(a: RunKey, b: RunKey)
    requires KeyLt(a, b)
    ensures !KeyLt(b, a)
  {
    if KeyLt(b, a) {
      KeyLtTransitive(a, b, a);
      KeyLtIrreflexive(a);
    }
  }

  lemma KeyLeTransitive(a: RunKey, b: RunKey, c: RunKey)
    requires KeyLe(a, b) && KeyLe(b, c)
    ensures KeyLe(a, c)
  {
    if KeyLt(a, b) && KeyLt(b, c) { KeyLtTransitive(a, b, c); }
  }

  // ---------------------------------------------------------------------------
  // Fixed-width digit strings compare like the numbers they denote

  lemma MulSucc(a: nat, p: nat)
    ensures (a + 1) * p == a * p + p
  {
  }

  lemma {:induction false} DigitsOrder(s: string, t: string)
    requires |s| == |t| && AllDigits(s) && AllDigits(t)
    ensures StrLt(s, t) <==> DigitsValue(s) < DigitsValue(t)
    ensures s == t <==> DigitsValue(s) == DigitsValue(t)
    decreases |s|
  {
    if |s| > 0 {
      var ds, dt, p := DigitValue(s[0]), DigitValue(t[0]), Pow10(|s| - 1);
      assert DigitsValue(s) == ds * p + DigitsValue(s[1..]);
      assert DigitsValue(t) == dt * p + DigitsValue(t[1..]);
      DigitsBound(s[1..]);
      DigitsBound(t[1..]);
      if s[0] < t[0] {
        MulSucc(ds, p);
        MulLe(ds + 1, dt, p);
      } else if t[0] < s[0] {
        MulSucc(dt, p);
        MulLe(dt + 1, ds, p);
        assert !StrLt(s, t);
      } else {
        DigitsOrder(s[1..], t[1..]);
        assert s == [s[0]] + s[1..] && t == [t[0]] + t[1..];
      }
    }
  }

  /** Comparing strings that start with equal-length pieces compares those pieces first. */
  lemma {:induction false} StrLtConcat(a: string, b: string, c: string, d: string)
    requires |a| == |c|
    ensures StrLt(a + b, c + d) <==> StrLt(a, c) || (a == c && StrLt(b, d))
    decreases |a|
  {
    if |a| == 0 {
      assert a + b == b && c + d == d;
    } else {
      assert (a + b)[0] == a[0] && (a + b)[1..] == a[1..] + b;
      assert (c + d)[0] == c[0] && (c + d)[1..] == c[1..] + d;
      StrLtConcat(a[1..], b, c[1..], d);
      assert a == [a[0]] + a[1..] && c == [c[0]] + c[1..];
    }
  }

  /** The three fields of an eight-digit date string. */
  lemma DateFields(s: string)
    requires |s| == 8
    ensures s == s[..4] + (s[4..6] + s[6..])
    ensures |s[..4]| == 4 && |s[4..6]| == 2 && |s[6..]| == 2
  {
  }

  /** On valid date fields, string order is calendar order and string equality is date equality. */
  lemma DateFieldOrder(s: string, t: string)
    requires ParseDate(s).Some? && ParseDate(t).Some?
    ensures var x, y := ParseDate(s).value, ParseDate(t).value;
      && (StrLt(s, t) <==> (x.year < y.year || (x.year == y.year && x.month < y.month)
                            || (x.year == y.year && x.month == y.month && x.day < y.day)))
      && (s == t <==> x == y)
  {
    DateFields(s);
    DateFields(t);
    DigitsOrder(s[..4], t[..4]);
    DigitsOrder(s[4..6], t[4..6]);
    DigitsOrder(s[6..], t[6..]);
    StrLtConcat(s[..4], s[4..6] + s[6..], t[..4], t[4..6] + t[6..]);
    StrLtConcat(s[4..6], s[6..], t[4..6], t[6..]);
  }

  /**
   * Offsets compare calendar dates: two parseable names give the same calendar date exactly
   * when their date fields are the same string.
   */
  lemma SameCalendarDateIff(a: string, b: string)
    requires GetDate(a).Some? && GetDate(b).Some?
    ensures GetDate(a).value.date == GetDate(b).value.date
            <==> ExtractDateTime(a).value.date == ExtractDateTime(b).value.date
  {
    DateFieldOrder(ExtractDateTime(a).value.date, ExtractDateTime(b).value.date);
  }

  /**
   * Sorting by the raw `(date, hour)` strings is chronological: for parseable names whose hour
   * field has two characters (the glob admits only `[01][02]`), key order is datetime order.
   */
  lemma KeyOrderIsChronological(a: string, b: string)
    requires GetDate(a).Some? && GetDate(b).Some?
    requires |ExtractDateTime(a).value.hour| == 2 && |ExtractDateTime(b).value.hour| == 2
    ensures KeyLt(ExtractDateTime(a).value, ExtractDateTime(b).value)
            <==> Before(GetDate(a).value, GetDate(b).value)
    ensures ExtractDateTime(a) == ExtractDateTime(b) <==> GetDate(a) == GetDate(b)
  {
    var ka, kb := ExtractDateTime(a).value, ExtractDateTime(b).value;
    DateFieldOrder(ka.date, kb.date);
    DigitsOrder(ka.hour, kb.hour);
  }
}
