/**
 * Each model's file list, sorted by run key (`sorted(files, key=...)`) and trimmed of its
 * earliest entries (`[3:]` for ecmwf, `[2:]` for the other three models).
 */
module Catalog {
  import opened FileNames
  import opened Chronology
  import opened Snapshots

  /** Entries dropped from the front of each sorted list. */
  const ECMWF_TRIM: nat := 3
  const ENSEMBLE_TRIM: nat := 2

  predicate Sorted(s: seq<Snapshot>)
  {
    forall i, j :: 0 <= i < j < |s| ==> KeyLe(Key(s[i]), Key(s[j]))
  }

  predicate StrictlySorted(s: seq<Snapshot>)
  {
    forall i, j :: 0 <= i < j < |s| ==> KeyLt(Key(s[i]), Key(s[j]))
  }

  /** No two files of one model's list carry the same run key. */
  predicate DistinctKeys(s: seq<Snapshot>)
  {
    forall i, j :: 0 <= i < j < |s| ==> Key(s[i]) != Key(s[j])
  }

  /** Inserts `x` after every file whose key is not above its own. */
  function Insert(x: Snapshot, s: seq<Snapshot>): (r: seq<Snapshot>)
    ensures multiset(r) == multiset(s) + multiset{x}
    ensures forall y :: y in r <==> y == x || y in s
    decreases |s|
  {
    if |s| == 0 then [x]
    else if KeyLe(Key(s[0]), Key(x)) then
      assert s == [s[0]] + s[1..];
      [s[0]] + Insert(x, s[1..])
    else [x] + s
  }

  /** A file that orders no later than every file of a sorted list may go in front of it. */
  lemma SortedCons(a: Snapshot, rest: seq<Snapshot>)
    requires Sorted(rest)
    requires forall y :: y in rest ==> KeyLe(Key(a), Key(y))
    ensures Sorted([a] + rest)
  {
    var r := [a] + rest;
    forall i, j | 0 <= i < j < |r| ensures KeyLe(Key(r[i]), Key(r[j])) {
      if i == 0 { assert r[j] == rest[j - 1] && rest[j - 1] in rest; }
      else { assert r[i] == rest[i - 1] && r[j] == rest[j - 1]; }
    }
  }

  lemma StrictlySortedCons(a: Snapshot, rest: seq<Snapshot>)
    requires StrictlySorted(rest)
    requires forall y :: y in rest ==> KeyLt(Key(a), Key(y))
    ensures StrictlySorted([a] + rest)
  {
    var r := [a] + rest;
    forall i, j | 0 <= i < j < |r| ensures KeyLt(Key(r[i]), Key(r[j])) {
      if i == 0 { assert r[j] == rest[j - 1] && rest[j - 1] in rest; }
      else { assert r[i] == rest[i - 1] && r[j] == rest[j - 1]; }
    }
  }

  /** The head of a sorted list orders no later than any of its files. */
  lemma SortedHead(s: seq<Snapshot>)
    requires |s| > 0 && Sorted(s)
    ensures forall y :: y in s ==> KeyLe(Key(s[0]), Key(y))
  {
    forall y | y in s ensures KeyLe(Key(s[0]), Key(y)) {
      var j :| 0 <= j < |s| && s[j] == y;
    }
  }

  lemma StrictlySortedHead(s: seq<Snapshot>)
    requires |s| > 0 && StrictlySorted(s)
    ensures forall y :: y in s[1..] ==> KeyLt(Key(s[0]), Key(y))
  {
    forall y | y in s[1..] ensures KeyLt(Key(s[0]), Key(y)) {
      var j :| 0 <= j < |s[1..]| && s[1..][j] == y;
      assert s[j + 1] == y;
    }
  }

  lemma {:induction false} InsertSorted(x: Snapshot, s: seq<Snapshot>)
    requires Sorted(s)
    ensures Sorted(Insert(x, s))
    decreases |s|
  {
    if |s| > 0 {
      if KeyLe(Key(s[0]), Key(x)) {
        var rest := Insert(x, s[1..]);
        InsertSorted(x, s[1..]);
        SortedHead(s);
        assert forall y :: y in s[1..] ==> y in s;
        SortedCons(s[0], rest);
      } else {
        KeyLtTrichotomy(Key(s[0]), Key(x));
        SortedHead(s);
        forall y | y in s ensures KeyLe(Key(x), Key(y)) {
          KeyLtTransitiveLe(Key(x), Key(s[0]), Key(y));
        }
        SortedCons(x, s);
      }
    }
  }

  lemma {:induction false} InsertStrictlySorted(x: Snapshot, s: seq<Snapshot>)
    requires StrictlySorted(s)
    requires forall y :: y in s ==> Key(y) != Key(x)
    ensures StrictlySorted(Insert(x, s))
    decreases |s|
  {
    if |s| > 0 {
      assert forall y :: y in s[1..] ==> y in s;
      if KeyLe(Key(s[0]), Key(x)) {
        var rest := Insert(x, s[1..]);
        InsertStrictlySorted(x, s[1..]);
        StrictlySortedHead(s);
        assert KeyLt(Key(s[0]), Key(x));
        StrictlySortedCons(s[0], rest);
      } else {
        KeyLtTrichotomy(Key(s[0]), Key(x));
        StrictlySortedHead(s);
        forall y | y in s ensures KeyLt(Key(x), Key(y)) {
          if y != s[0] { KeyLtTransitive(Key(x), Key(s[0]), Key(y)); }
        }
        StrictlySortedCons(x, s);
      }
    }
  }

  lemma KeyLtTransitiveLe(a: RunKey, b: RunKey, c: RunKey)
    requires KeyLt(a, b) && KeyLe(b, c)
    ensures KeyLt(a, c)
  {
    if KeyLt(b, c) { KeyLtTransitive(a, b, c); }
  }

  /** `sorted(files, key=lambda x: (date, hour))`: ascending by run key, same files. */
  function SortByRun(files: seq<Snapshot>): (r: seq<Snapshot>)
    ensures Sorted(r)
    ensures multiset(r) == multiset(files)
    ensures |r| == |files|
    ensures DistinctKeys(files) ==> StrictlySorted(r)
    decreases |files|
  {
    if |files| == 0 then []
    else
      var n := |files| - 1;
      var init := SortByRun(files[..n]);
      assert files == files[..n] + [files[n]];
      InsertSorted(files[n], init);
      SortedDistinct(files, init);
      var r := Insert(files[n], init);
      assert |r| == |multiset(r)|;
      r
  }

  lemma SortedDistinct(files: seq<Snapshot>, init: seq<Snapshot>)
    requires |files| > 0
    requires multiset(init) == multiset(files[..|files| - 1])
    requires DistinctKeys(files[..|files| - 1]) ==> StrictlySorted(init)
    ensures DistinctKeys(files) ==> StrictlySorted(Insert(files[|files| - 1], init))
  {
    var n := |files| - 1;
    if DistinctKeys(files) {
      assert DistinctKeys(files[..n]);
      LastKeyFresh(files);
      forall y | y in init ensures Key(y) != Key(files[n]) {
        assert y in multiset(files[..n]);
      }
      InsertStrictlySorted(files[n], init);
    }
  }

  /** With distinct keys, the last file's key is carried by no earlier file. */
  lemma LastKeyFresh(files: seq<Snapshot>)
    requires |files| > 0 && DistinctKeys(files)
    ensures forall y :: y in files[..|files| - 1] ==> Key(y) != Key(files[|files| - 1])
  {
    var n := |files| - 1;
    forall y | y in files[..n] ensures Key(y) != Key(files[n]) {
      var j :| 0 <= j < n && files[..n][j] == y;
      assert files[j] == y;
    }
  }

  /**
   * `sorted(files, key=...)[n:]`: the sorted list without its `n` earliest files (empty when
   * there are at most `n`). Every dropped file orders no later than every kept one.
   */
  function SortedTrimmed(files: seq<Snapshot>, n: nat): (r: seq<Snapshot>)
    ensures Sorted(r)
    ensures DistinctKeys(files) ==> StrictlySorted(r)
    ensures |r| == if |files| <= n then 0 else |files| - n
    ensures multiset(r) <= multiset(files)
    ensures forall f, g :: f in multiset(files) - multiset(r) && g in r ==> KeyLe(Key(f), Key(g))
  {
    var s := SortByRun(files);
    if |s| <= n then []
    else
      TrimSplit(s, n);
      s[n..]
  }

  lemma TrimSplit(s: seq<Snapshot>, n: nat)
    requires Sorted(s) && n < |s|
    ensures multiset(s) - multiset(s[n..]) == multiset(s[..n])
    ensures forall f, g :: f in multiset(s[..n]) && g in s[n..] ==> KeyLe(Key(f), Key(g))
    ensures Sorted(s[n..])
    ensures StrictlySorted(s) ==> StrictlySorted(s[n..])
  {
    assert multiset(s) - multiset(s[n..]) == multiset(s[..n]) by {
      assert s == s[..n] + s[n..];
    }
    forall f, g | f in multiset(s[..n]) && g in s[n..] ensures KeyLe(Key(f), Key(g)) {
      PrefixBeforeSuffix(s, n, f, g);
    }
    SuffixSorted(s, n);
  }

  /** In a sorted list, a file before position `n` orders no later than one from `n` on. */
  lemma PrefixBeforeSuffix(s: seq<Snapshot>, n: nat, f: Snapshot, g: Snapshot)
    requires Sorted(s) && n <= |s| && f in s[..n] && g in s[n..]
    ensures KeyLe(Key(f), Key(g))
  {
    var i :| 0 <= i < n && s[..n][i] == f;
    var j :| 0 <= j < |s| - n && s[n..][j] == g;
    assert s[i] == f && s[n + j] == g;
  }

  lemma SuffixSorted(s: seq<Snapshot>, n: nat)
    requires n <= |s|
    ensures Sorted(s) ==> Sorted(s[n..])
    ensures StrictlySorted(s) ==> StrictlySorted(s[n..])
  {
    var t := s[n..];
    assert forall i :: 0 <= i < |t| ==> t[i] == s[n + i];
  }

  /** Every file of a sub-permutation of an admitted list is admitted. */
  lemma TrimmedAdmitted(files: seq<Snapshot>, n: nat)
    requires AllAdmitted(files)
    ensures AllAdmitted(SortedTrimmed(files, n))
  {
    var r := SortedTrimmed(files, n);
    forall k | 0 <= k < |r| ensures Admitted(r[k]) {
      assert r[k] in multiset(r);
      assert r[k] in multiset(files);
    }
  }
}
