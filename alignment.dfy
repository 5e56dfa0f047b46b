/**
 * Run alignment: the two passes of set filters that reduce the four trimmed file lists to the
 * runs every model has.
 */
module Alignment {
  import opened FileNames
  import opened Chronology
  import opened Snapshots
  import opened Catalog

  /** The four per-model file lists, in the source's variable order. */
  datatype ModelFiles = ModelFiles(ecmwf: seq<Snapshot>, eps: seq<Snapshot>, gfs: seq<Snapshot>, cmc: seq<Snapshot>)

  /** `set(extract_date_time(f) for f in files)`. */
  function KeySet(s: seq<Snapshot>): set<RunKey>
  {
    set f | f in s :: Key(f)
  }

  /** The run key at each position of a list. */
  function Keys(s: seq<Snapshot>): (ks: seq<RunKey>)
    ensures |ks| == |s|
  {
    seq(|s|, k requires 0 <= k < |s| => Key(s[k]))
  }

  /** `[f for f in s if extract_date_time(f) in ks]`. */
  function KeepIn(s: seq<Snapshot>, ks: set<RunKey>): (r: seq<Snapshot>)
    ensures forall f :: f in r <==> f in s && Key(f) in ks
    ensures IsSubsequence(r, s)
    ensures |r| <= |s|
    decreases |s|
  {
    if |s| == 0 then []
    else
      var rest := KeepIn(s[1..], ks);
      if Key(s[0]) in ks then
        assert ([s[0]] + rest)[1..] == rest;
        [s[0]] + rest
      else rest
  }

  /** The comprehension keeps every copy of a file whose run is in the set, and no other file. */
  lemma {:induction false} KeepInCounts(s: seq<Snapshot>, ks: set<RunKey>)
    ensures forall f :: multiset(KeepIn(s, ks))[f] == if Key(f) in ks then multiset(s)[f] else 0
    decreases |s|
  {
    if |s| > 0 {
      KeepInCounts(s[1..], ks);
      assert s == [s[0]] + s[1..];
    }
  }

  lemma KeepInKeySet(s: seq<Snapshot>, ks: set<RunKey>)
    ensures KeySet(KeepIn(s, ks)) == KeySet(s) * ks
  {
    var r := KeepIn(s, ks);
    forall k | k in KeySet(s) * ks ensures k in KeySet(r) {
      var f :| f in s && Key(f) == k;
      assert f in r;
    }
  }

  /** Filtering twice is filtering once by the intersection. */
  lemma {:induction false} KeepInTwice(s: seq<Snapshot>, a: set<RunKey>, b: set<RunKey>)
    ensures KeepIn(KeepIn(s, a), b) == KeepIn(s, a * b)
    decreases |s|
  {
    if |s| > 0 {
      KeepInTwice(s[1..], a, b);
      var rest := KeepIn(s[1..], a);
      if Key(s[0]) in a {
        assert ([s[0]] + rest)[1..] == rest;
      }
    }
  }

  /** Filtering by a superset of the list's keys changes nothing. */
  lemma {:induction false} KeepInAll(s: seq<Snapshot>, a: set<RunKey>)
    requires KeySet(s) <= a
    ensures KeepIn(s, a) == s
    decreases |s|
  {
    if |s| > 0 {
      assert KeySet(s[1..]) <= KeySet(s) by {
        forall k | k in KeySet(s[1..]) ensures k in KeySet(s) {
          var f :| f in s[1..] && Key(f) == k;
          assert f in s;
        }
      }
      KeepInAll(s[1..], a);
      assert s[0] in s;
      assert [s[0]] + s[1..] == s;
    }
  }

  lemma {:induction false} KeepInStrictlySorted(s: seq<Snapshot>, a: set<RunKey>)
    requires StrictlySorted(s)
    ensures StrictlySorted(KeepIn(s, a))
    decreases |s|
  {
    if |s| > 0 {
      SuffixSorted(s, 1);
      KeepInStrictlySorted(s[1..], a);
      if Key(s[0]) in a {
        var rest := KeepIn(s[1..], a);
        StrictlySortedHead(s);
        StrictlySortedCons(s[0], rest);
      }
    }
  }

  lemma KeepInAdmitted(s: seq<Snapshot>, a: set<RunKey>)
    requires AllAdmitted(s)
    ensures AllAdmitted(KeepIn(s, a))
  {
    var r := KeepIn(s, a);
    forall k | 0 <= k < |r| ensures Admitted(r[k]) {
      assert r[k] in r;
      var j :| 0 <= j < |s| && s[j] == r[k];
    }
  }

  // ---------------------------------------------------------------------------
  // The alignment loop

  /** One iteration of the `for _ in range(2)` loop, its rebindings in source order. */
  function AlignPass(m: ModelFiles): ModelFiles
  {
    var set1 := KeySet(m.ecmwf);
    var set2 := KeySet(m.eps);
    var ecmwf := KeepIn(m.ecmwf, set2);
    var eps := KeepIn(m.eps, set1);
    var cmc := KeepIn(m.cmc, set1);
    var master := KeySet(cmc);
    var gfs := KeepIn(m.gfs, master);
    var master2 := KeySet(gfs);
    ModelFiles(KeepIn(ecmwf, master2), KeepIn(eps, master2), KeepIn(gfs, master2), KeepIn(cmc, master2))
  }

  /** The runs present in all four lists. */
  function Common(m: ModelFiles): set<RunKey>
  {
    KeySet(m.ecmwf) * KeySet(m.eps) * KeySet(m.gfs) * KeySet(m.cmc)
  }

  /** Each list filtered to the given runs. */
  function RestrictAll(m: ModelFiles, ks: set<RunKey>): ModelFiles
  {
    ModelFiles(KeepIn(m.ecmwf, ks), KeepIn(m.eps, ks), KeepIn(m.gfs, ks), KeepIn(m.cmc, ks))
  }

  /** A filter only looks at the list's own keys. */
  lemma {:induction false} KeepInOwnKeys(s: seq<Snapshot>, a: set<RunKey>, b: set<RunKey>)
    requires a * KeySet(s) == b * KeySet(s)
    ensures KeepIn(s, a) == KeepIn(s, b)
    decreases |s|
  {
    if |s| > 0 {
      assert s[0] in s;
      assert Key(s[0]) in KeySet(s);
      forall k | k in KeySet(s[1..]) ensures k in KeySet(s) {
        var f :| f in s[1..] && Key(f) == k;
        assert f in s;
      }
      assert forall k :: k in KeySet(s) ==> (k in a <==> k in b) by {
        forall k | k in KeySet(s) ensures k in a <==> k in b {
          assert k in a * KeySet(s) <==> k in b * KeySet(s);
        }
      }
      assert a * KeySet(s[1..]) == b * KeySet(s[1..]);
      KeepInOwnKeys(s[1..], a, b);
    }
  }

  /**
   * What one pass does: ecmwf and ecmwf-eps are filtered to the runs common to all four
   * lists, while gfs-ens-bc and cmc-ens are filtered only to the runs they share with ecmwf
   * (the `master_set`s never see the ecmwf-eps keys).
   */
  lemma AlignPassOnce(m: ModelFiles)
    ensures AlignPass(m) == ModelFiles(KeepIn(m.ecmwf, Common(m)), KeepIn(m.eps, Common(m)),
                                       KeepIn(m.gfs, PassMaster(m)), KeepIn(m.cmc, PassMaster(m)))
  {
    PassEcmwfEps(m);
    PassGfsCmc(m);
  }

  lemma PassEcmwfEps(m: ModelFiles)
    ensures AlignPass(m).ecmwf == KeepIn(m.ecmwf, Common(m))
    ensures AlignPass(m).eps == KeepIn(m.eps, Common(m))
  {
    PassEcmwf(m);
    PassEps(m);
  }

  lemma PassEcmwf(m: ModelFiles)
    ensures AlignPass(m).ecmwf == KeepIn(m.ecmwf, Common(m))
  {
    PassMasterIsCommon(m);
    assert AlignPass(m).ecmwf == KeepIn(KeepIn(m.ecmwf, KeySet(m.eps)), PassMaster(m));
    FilteredTwice(m.ecmwf, KeySet(m.eps), PassMaster(m), Common(m));
  }

  lemma PassEps(m: ModelFiles)
    ensures AlignPass(m).eps == KeepIn(m.eps, Common(m))
  {
    PassMasterIsCommon(m);
    assert AlignPass(m).eps == KeepIn(KeepIn(m.eps, KeySet(m.ecmwf)), PassMaster(m));
    FilteredTwice(m.eps, KeySet(m.ecmwf), PassMaster(m), Common(m));
  }

  lemma PassGfsCmc(m: ModelFiles)
    ensures AlignPass(m).gfs == KeepIn(m.gfs, PassMaster(m))
    ensures AlignPass(m).cmc == KeepIn(m.cmc, PassMaster(m))
  {
    PassGfs(m);
    PassCmc(m);
  }

  lemma PassGfs(m: ModelFiles)
    ensures AlignPass(m).gfs == KeepIn(m.gfs, PassMaster(m))
  {
    var e := KeySet(m.ecmwf);
    PassMasterIsCommon(m);
    KeepInKeySet(m.cmc, e);
    assert AlignPass(m).gfs == KeepIn(KeepIn(m.gfs, KeySet(KeepIn(m.cmc, e))), PassMaster(m));
    FilteredTwice(m.gfs, KeySet(m.cmc) * e, PassMaster(m), PassMaster(m));
  }

  lemma PassCmc(m: ModelFiles)
    ensures AlignPass(m).cmc == KeepIn(m.cmc, PassMaster(m))
  {
    PassMasterIsCommon(m);
    assert AlignPass(m).cmc == KeepIn(KeepIn(m.cmc, KeySet(m.ecmwf)), PassMaster(m));
    FilteredTwice(m.cmc, KeySet(m.ecmwf), PassMaster(m), PassMaster(m));
  }

  lemma FilteredTwice(s: seq<Snapshot>, a: set<RunKey>, b: set<RunKey>, all: set<RunKey>)
    requires a * b * KeySet(s) == all * KeySet(s)
    ensures KeepIn(KeepIn(s, a), b) == KeepIn(s, all)
  {
    KeepInTwice(s, a, b);
    KeepInOwnKeys(s, a * b, all);
  }

  /** The two passes of the source filter every list to exactly the runs common to all four. */
  lemma TwoPassesAlign(m: ModelFiles)
    ensures AlignPass(AlignPass(m)) == RestrictAll(m, Common(m))
  {
    var e, p, g, c := KeySet(m.ecmwf), KeySet(m.eps), KeySet(m.gfs), KeySet(m.cmc);
    var all, x := Common(m), PassMaster(m);
    PassMasterIsCommon(m);
    AlignPassOnce(m);
    var m1 := AlignPass(m);
    assert m1.ecmwf == KeepIn(m.ecmwf, all) && m1.eps == KeepIn(m.eps, all);
    assert m1.gfs == KeepIn(m.gfs, x) && m1.cmc == KeepIn(m.cmc, x);
    KeepInKeySet(m.ecmwf, all);
    KeepInKeySet(m.eps, all);
    KeepInKeySet(m.gfs, x);
    KeepInKeySet(m.cmc, x);
    SecondPassSets(e, p, g, c);
    assert Common(m1) == all;
    AlignPassOnce(m1);
    PassMasterIsCommon(m1);
    assert PassMaster(m1) == all;
    KeepInTwice(m.ecmwf, all, all);
    KeepInTwice(m.eps, all, all);
    KeepInTwice(m.gfs, x, all);
    KeepInTwice(m.cmc, x, all);
  }

  /** The set algebra behind the second pass. */
  lemma SecondPassSets(e: set<RunKey>, p: set<RunKey>, g: set<RunKey>, c: set<RunKey>)
    ensures var all, x := e * p * g * c, g * (c * e);
      && (e * all) * (p * all) * (g * x) * (c * x) == all
      && (g * x) * ((c * x) * (e * all)) == all
      && all * all == all && x * all == all
  {
  }

  /**
   * One pass is not enough: a run that ecmwf, gfs-ens-bc and cmc-ens have but ecmwf-eps lacks
   * survives the first pass in the gfs-ens-bc and cmc-ens lists, and only the second pass
   * removes it.
   */
  lemma OnePassIsNotEnough(f: Snapshot)
    ensures var m := ModelFiles([f], [], [f], [f]);
      AlignPass(m).eps == [] && AlignPass(m).gfs == [f] && AlignPass(m).cmc == [f]
      && AlignPass(AlignPass(m)).gfs == []
  {
    var m := ModelFiles([f], [], [f], [f]);
    assert KeySet([f]) == {Key(f)} by { assert f in [f]; }
    assert KeySet([]) == {};
    assert Common(m) == {};
    PassMasterIsCommon(m);
    KeepInSingle(f, PassMaster(m));
    KeepInSingle(f, Common(m));
    PassGfsCmc(m);
    TwoPassesAlign(m);
  }

  /** Filtering a one-file list keeps the file exactly when its run is in the set. */
  lemma KeepInSingle(f: Snapshot, ks: set<RunKey>)
    ensures KeepIn([f], ks) == if Key(f) in ks then [f] else []
  {
    assert [f][1..] == [];
  }

  /** A further pass over the aligned lists changes nothing. */
  lemma AlignedIsFixpoint(m: ModelFiles)
    ensures AlignPass(RestrictAll(m, Common(m))) == RestrictAll(m, Common(m))
  {
    var r := RestrictAll(m, Common(m));
    RestrictAllKeySets(m);
    AlignPassOnce(r);
    PassMasterIsCommon(r);
    KeepInAll(r.ecmwf, Common(m));
    KeepInAll(r.eps, Common(m));
    KeepInAll(r.gfs, Common(m));
    KeepInAll(r.cmc, Common(m));
  }

  /** The second `master_set` of a pass: the keys of the gfs list after its filter. */
  function PassMaster(m: ModelFiles): set<RunKey>
  {
    KeySet(KeepIn(m.gfs, KeySet(KeepIn(m.cmc, KeySet(m.ecmwf)))))
  }

  lemma PassMasterIsCommon(m: ModelFiles)
    ensures PassMaster(m) == KeySet(m.gfs) * (KeySet(m.cmc) * KeySet(m.ecmwf))
  {
    KeepInKeySet(m.cmc, KeySet(m.ecmwf));
    KeepInKeySet(m.gfs, KeySet(m.cmc) * KeySet(m.ecmwf));
  }

  /** The aligned lists each carry exactly the common runs. */
  lemma RestrictAllKeySets(m: ModelFiles)
    ensures var r := RestrictAll(m, Common(m));
      KeySet(r.ecmwf) == Common(m) && KeySet(r.eps) == Common(m)
      && KeySet(r.gfs) == Common(m) && KeySet(r.cmc) == Common(m)
      && Common(r) == Common(m)
  {
    KeepInKeySet(m.ecmwf, Common(m));
    KeepInKeySet(m.eps, Common(m));
    KeepInKeySet(m.gfs, Common(m));
    KeepInKeySet(m.cmc, Common(m));
  }

  /** Lines 48-69: two alignment passes over the trimmed lists. */
  method AlignRuns(m: ModelFiles) returns (r: ModelFiles)
    ensures r == RestrictAll(m, Common(m))
  {
    r := m;
    for pass := 0 to 2
      invariant pass == 0 ==> r == m
      invariant pass == 1 ==> r == AlignPass(m)
      invariant pass == 2 ==> r == AlignPass(AlignPass(m))
    {
      r := AlignPass(r);
    }
    TwoPassesAlign(m);
  }

  // ---------------------------------------------------------------------------
  // What alignment guarantees to the feature loops

  /** Strictly sorted lists with the same runs hold the same run at every position. */
  lemma {:induction false} SameRunsSamePositions(a: seq<Snapshot>, b: seq<Snapshot>)
    requires StrictlySorted(a) && StrictlySorted(b)
    requires KeySet(a) == KeySet(b)
    ensures Keys(a) == Keys(b)
    decreases |a|
  {
    if |a| > 0 {
      SameHead(a, b);
      TailKeySet(a);
      TailKeySet(b);
      SuffixSorted(a, 1);
      SuffixSorted(b, 1);
      SameRunsSamePositions(a[1..], b[1..]);
      KeysCons(a);
      KeysCons(b);
    } else {
      HeadKeyIn(b);
    }
  }

  /** The least run of two strictly sorted lists with the same runs is the same. */
  lemma SameHead(a: seq<Snapshot>, b: seq<Snapshot>)
    requires StrictlySorted(a) && StrictlySorted(b)
    requires KeySet(a) == KeySet(b) && |a| > 0
    ensures |b| > 0 && Key(a[0]) == Key(b[0])
  {
    HeadKeyIn(a);
    HeadKeyIn(b);
    var j :| j in b && Key(j) == Key(a[0]);
    var k :| k in a && Key(k) == Key(b[0]);
    StrictlySortedHead(a);
    StrictlySortedHead(b);
    if Key(a[0]) != Key(b[0]) {
      assert j != b[0] && j in b[1..];
      assert k != a[0] && k in a[1..];
      KeyLtAsymmetric(Key(a[0]), Key(k));
      assert false;
    }
  }

  lemma KeysCons(s: seq<Snapshot>)
    requires |s| > 0
    ensures Keys(s) == [Key(s[0])] + Keys(s[1..])
  {
  }

  lemma HeadKeyIn(s: seq<Snapshot>)
    ensures |s| > 0 ==> Key(s[0]) in KeySet(s)
  {
  }

  lemma TailKeySet(s: seq<Snapshot>)
    requires |s| > 0 && StrictlySorted(s)
    ensures KeySet(s[1..]) == KeySet(s) - {Key(s[0])}
  {
    StrictlySortedHead(s);
    forall f | f in s[1..] ensures Key(f) != Key(s[0]) {
      KeyLtIrreflexive(Key(s[0]));
    }
    forall k | k in KeySet(s) - {Key(s[0])} ensures k in KeySet(s[1..]) {
      var f :| f in s && Key(f) == k;
      var i :| 0 <= i < |s| && s[i] == f;
      assert i > 0 && s[1..][i - 1] == f;
    }
  }

  /** The lists the loops index together: the same run at every position, eps strictly sorted. */
  predicate KeysAligned(m: ModelFiles)
  {
    && Keys(m.ecmwf) == Keys(m.eps) && Keys(m.gfs) == Keys(m.eps) && Keys(m.cmc) == Keys(m.eps)
    && StrictlySorted(m.eps)
  }

  /** Aligned lists whose every file the loops can date. */
  predicate Aligned(m: ModelFiles)
  {
    && KeysAligned(m)
    && AllAdmitted(m.ecmwf) && AllAdmitted(m.eps) && AllAdmitted(m.gfs) && AllAdmitted(m.cmc)
  }

  predicate Catalogued(m: ModelFiles)
  {
    StrictlySorted(m.ecmwf) && StrictlySorted(m.eps) && StrictlySorted(m.gfs) && StrictlySorted(m.cmc)
  }

  /**
   * Dating the eps files dates them all: a file at position `k` of another aligned list has
   * the run of eps file `k`, and admission depends on the run alone.
   */
  lemma AlignedByEps(m: ModelFiles)
    requires KeysAligned(m) && AllAdmitted(m.eps)
    ensures Aligned(m)
  {
    assert |Keys(m.ecmwf)| == |Keys(m.eps)| && |Keys(m.gfs)| == |Keys(m.eps)| && |Keys(m.cmc)| == |Keys(m.eps)|;
    forall k | 0 <= k < |m.eps|
      ensures Admitted(m.ecmwf[k]) && Admitted(m.gfs[k]) && Admitted(m.cmc[k])
    {
      assert Keys(m.ecmwf)[k] == Keys(m.eps)[k] && Keys(m.gfs)[k] == Keys(m.eps)[k] && Keys(m.cmc)[k] == Keys(m.eps)[k];
      AdmittedByKey(m.eps[k]);
      AdmittedByKey(m.ecmwf[k]);
      AdmittedByKey(m.gfs[k]);
      AdmittedByKey(m.cmc[k]);
    }
  }

  /**
   * After alignment the four lists are order-preserving subsequences of the trimmed lists,
   * carry exactly the common runs, have equal lengths and hold the same run at each index.
   */
  lemma AlignedRunsCoincide(m: ModelFiles)
    requires Catalogued(m)
    ensures var r := RestrictAll(m, Common(m));
      && KeysAligned(r)
      && IsSubsequence(r.ecmwf, m.ecmwf) && IsSubsequence(r.eps, m.eps)
      && IsSubsequence(r.gfs, m.gfs) && IsSubsequence(r.cmc, m.cmc)
      && KeySet(r.eps) == Common(m)
      && |r.ecmwf| == |r.eps| == |r.gfs| == |r.cmc|
  {
    var r := RestrictAll(m, Common(m));
    RestrictAllKeySets(m);
    KeepInStrictlySorted(m.ecmwf, Common(m));
    KeepInStrictlySorted(m.eps, Common(m));
    KeepInStrictlySorted(m.gfs, Common(m));
    KeepInStrictlySorted(m.cmc, Common(m));
    SameRunsSamePositions(r.ecmwf, r.eps);
    SameRunsSamePositions(r.gfs, r.eps);
    SameRunsSamePositions(r.cmc, r.eps);
  }

  /** Every common run is found in every aligned list: nothing common is lost. */
  lemma CommonRunsKept(m: ModelFiles, k: RunKey)
    requires k in KeySet(m.ecmwf) && k in KeySet(m.eps) && k in KeySet(m.gfs) && k in KeySet(m.cmc)
    ensures var r := RestrictAll(m, Common(m));
      k in KeySet(r.ecmwf) && k in KeySet(r.eps) && k in KeySet(r.gfs) && k in KeySet(r.cmc)
  {
    RestrictAllKeySets(m);
  }
}
