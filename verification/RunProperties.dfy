/** Several runs of open_output() in sequence mode, one after the other. */
module RunProperties {
  import opened SequenceNames
  import opened FileSystem
  import opened Directories
  import opened OpenRetry
  import opened OutputProperties
  import opened NameDepth

  /** The tree after m runs. */
  ghost function Runs(c: Conf, fs: Fs, m: nat): (fs': Fs)
    requires c.WellFormed() && WellFormed(fs) && c.policy == Sequence && c.limit > 0
    ensures WellFormed(fs')
  {
    if m == 0 then fs else
      var before := Runs(c, fs, m - 1);
      SearchKeepsWellFormed(c, before);
      Search(c, before, 0).1
  }

  lemma SearchKeepsWellFormed(c: Conf, fs: Fs)
    requires c.WellFormed() && WellFormed(fs) && Ends(c, fs)
    ensures WellFormed(Search(c, fs, 0).1)
  {
    var m := SearchStops(c, fs, 0);
    OnlyTheOutputChanges(c, fs, m);
  }

  /** Every counter below the limit has a name that fits and is free, and whose directory is
      there or (with mkdir) can be made. */
  ghost predicate FreshNames(c: Conf, fs: Fs, mkdir: bool) {
    forall i :: 0 <= i < c.limit ==>
      c.FitsAt(i) && !Exists(fs, Components(c.PathOf(i))) && Ready(fs, c.PathOf(i), mkdir)
  }

  /** The files of fs and the empty files of the first m counters. */
  function WithFirst(c: Conf, fs: Fs, m: nat): Fs {
    if m == 0 then fs else
      var before := WithFirst(c, fs, m - 1);
      before.(files := before.files[Components(c.PathOf(m - 1)) := ""])
  }

  lemma {:induction false} WithFirstHas(c: Conf, fs: Fs, m: nat, x: Name)
    ensures x in WithFirst(c, fs, m).files <==> x in fs.files || x in NamesBelow(c, m)
    ensures x in fs.files && x !in NamesBelow(c, m) ==> WithFirst(c, fs, m).files[x] == fs.files[x]
    ensures WithFirst(c, fs, m) == fs.(files := WithFirst(c, fs, m).files)
  {
    if m > 0 {
      WithFirstHas(c, fs, m - 1, x);
    }
  }

  lemma {:induction false} NamesBelowContains(c: Conf, m: nat, i: nat)
    requires i < m
    ensures Components(c.PathOf(i)) in NamesBelow(c, m)
  {
    if i < m - 1 {
      NamesBelowContains(c, m - 1, i);
    }
  }

  /** The number of components of every name. */
  function Depth(c: Conf): nat {
    |Components(c.PathOf(0))|
  }

  lemma DepthOf(c: Conf, i: nat)
    requires c.limit > 0 && i < c.limit
    ensures |Components(c.PathOf(i))| == Depth(c)
  {
    EquallyDeep(c.pattern, c.pid, c.exe, c.limit, i, 0);
  }

  lemma NamesBelowDepth(c: Conf, m: nat, x: Name)
    requires c.limit > 0 && m <= c.limit && x in NamesBelow(c, m)
    ensures |x| == Depth(c)
  {
    var i := NamesBelowHas(c, m, x);
    DepthOf(c, i);
  }

  /** An ancestor of a name has fewer components. */
  lemma AncestorIsShorter(name: string, a: Name)
    requires name != [] && name[|name| - 1] != '/' && a in Ancestors(name, |name|)
    ensures |a| < |Components(name)|
  {
    var q := AncestorIsCut(name, |name|, a);
    assert name == name[..q] + name[q..];
    ComponentsConcat(name[..q], name[q..]);
    ComponentsNotEmpty(name[q..]);
  }

  // ---------- the state between two runs ----------

  /** The tree `now` after m runs from fs: exactly the names of the first m counters are new, and
      new directories are shorter than any name. */
  ghost predicate After(c: Conf, fs: Fs, now: Fs, m: nat) {
    && WellFormed(now) && now.files == WithFirst(c, fs, m).files
    && fs.dirs <= now.dirs && now.denied == fs.denied
    && (forall d :: d in now.dirs ==> d in fs.dirs || |d| < Depth(c))
    && (FreshNames(c, fs, false) ==> now == WithFirst(c, fs, m))
  }

  /** After m runs exactly the counters below m exist. */
  lemma ExistsAfterFirst(c: Conf, fs: Fs, now: Fs, m: nat, i: nat)
    requires LiveQs(c.pattern) > 0 && c.limit > 0 && FreshNames(c, fs, c.mkdir) && After(c, fs, now, m)
    requires m <= c.limit && i < c.limit
    ensures Exists(now, Components(c.PathOf(i))) <==> i < m
  {
    var x := Components(c.PathOf(i));
    WithFirstHas(c, fs, m, x);
    DepthOf(c, i);
    if i < m {
      NamesBelowContains(c, m, i);
    } else if x in NamesBelow(c, m) {
      var k := NamesBelowHas(c, m, x);
      DistinctNames(c, i, k);
      assert false;
    }
  }

  /** A name that is too short to be one of the sequence is a file only if it was one before. */
  lemma NotNamed(c: Conf, fs: Fs, now: Fs, m: nat, x: Name)
    requires c.limit > 0 && m <= c.limit && After(c, fs, now, m) && |x| < Depth(c)
    ensures x in now.files <==> x in fs.files
  {
    WithFirstHas(c, fs, m, x);
    if x in NamesBelow(c, m) {
      NamesBelowDepth(c, m, x);
    }
  }

  lemma StillMakeable(c: Conf, fs: Fs, now: Fs, m: nat, a: Name)
    requires c.limit > 0 && m <= c.limit && After(c, fs, now, m) && |a| < Depth(c) && Makeable(fs, a)
    ensures Makeable(now, a)
  {
    if a != [] {
      NotNamed(c, fs, now, m, a);
      NotNamed(c, fs, now, m, Parent(a));
    }
  }

  /** The files of earlier runs are in nobody's way. */
  lemma StillReady(c: Conf, fs: Fs, now: Fs, m: nat, i: nat, mkdir: bool)
    requires c.limit > 0 && m <= c.limit && i < c.limit && After(c, fs, now, m)
    requires Ready(fs, c.PathOf(i), mkdir)
    ensures Ready(now, c.PathOf(i), mkdir)
  {
    var name := c.PathOf(i);
    DepthOf(c, i);
    NotNamed(c, fs, now, m, Parent(Components(name)));
    if Parent(Components(name)) !in fs.dirs {
      forall a | a in Ancestors(name, |name|) ensures Makeable(now, a) {
        AncestorIsShorter(name, a);
        StillMakeable(c, fs, now, m, a);
      }
    }
  }

  // ---------- the runs ----------

  lemma NextIsFree(c: Conf, fs: Fs, now: Fs, m: nat)
    requires LiveQs(c.pattern) > 0 && c.limit > 0 && FreshNames(c, fs, c.mkdir) && After(c, fs, now, m) && m < c.limit
    ensures LeastFree(c, now, m)
    ensures FreshNames(c, fs, false) ==> Ready(now, c.PathOf(m), false)
  {
    forall i | 0 <= i < m ensures Blocked(c, now, i) {
      ExistsAfterFirst(c, fs, now, m, i);
      assert Ready(fs, c.PathOf(i), c.mkdir);
    }
    ExistsAfterFirst(c, fs, now, m, m);
    StillReady(c, fs, now, m, m, c.mkdir);
    if FreshNames(c, fs, false) {
      StillReady(c, fs, now, m, m, false);
    }
  }

  lemma NewDirsAreShort(c: Conf, now: Fs, next: Fs, m: nat)
    requires c.limit > 0 && m < c.limit && c.PathOf(m) != [] && c.PathOf(m)[|c.PathOf(m)| - 1] != '/'
    requires next.dirs <= now.dirs + Ancestors(c.PathOf(m), |c.PathOf(m)|)
    ensures forall d :: d in next.dirs ==> d in now.dirs || |d| < Depth(c)
  {
    DepthOf(c, m);
    forall d | d in next.dirs && d !in now.dirs ensures |d| < Depth(c) {
      AncestorIsShorter(c.PathOf(m), d);
    }
  }

  /** One more run. */
  lemma NextRun(c: Conf, fs: Fs, now: Fs, m: nat)
    requires c.WellFormed() && WellFormed(fs) && c.policy == Sequence && c.limit > 0 && LiveQs(c.pattern) > 0
    requires FreshNames(c, fs, c.mkdir) && After(c, fs, now, m) && m < c.limit
    ensures Search(c, now, 0).0 == Opened(c.PathOf(m)) && After(c, fs, Search(c, now, 0).1, m + 1)
  {
    NextIsFree(c, fs, now, m);
    LeastFreeSlot(c, now, m);
    var next := Search(c, now, 0).1;
    NewDirsAreShort(c, now, next, m);
    assert next.files == WithFirst(c, fs, m + 1).files;
  }

  lemma RunAfterLast(c: Conf, fs: Fs, now: Fs)
    requires c.WellFormed() && c.policy == Sequence && c.limit > 0
    requires LiveQs(c.pattern) > 0 && FreshNames(c, fs, c.mkdir) && After(c, fs, now, c.limit)
    ensures Search(c, now, 0).0 == Failed
  {
    forall n: nat | n < c.limit ensures !LeastFree(c, now, n) {
      ExistsAfterFirst(c, fs, now, c.limit, n);
    }
    NoFreeSlot(c, now);
  }

  lemma RunsStep(c: Conf, fs: Fs, m: nat)
    requires c.WellFormed() && WellFormed(fs) && c.policy == Sequence && c.limit > 0 && m > 0
    ensures Runs(c, fs, m) == Search(c, Runs(c, fs, m - 1), 0).1
  {
  }

  lemma NoRunYet(c: Conf, fs: Fs)
    requires WellFormed(fs)
    ensures After(c, fs, fs, 0)
  {
  }

  lemma {:induction false} AfterRuns(c: Conf, fs: Fs, m: nat)
    requires c.WellFormed() && WellFormed(fs) && c.policy == Sequence && c.limit > 0
    requires LiveQs(c.pattern) > 0 && FreshNames(c, fs, c.mkdir) && m <= c.limit
    ensures After(c, fs, Runs(c, fs, m), m)
  {
    if m == 0 {
      NoRunYet(c, fs);
    } else {
      AfterRuns(c, fs, m - 1);
      NextRun(c, fs, Runs(c, fs, m - 1), m - 1);
      RunsStep(c, fs, m);
    }
  }

  /** Run number m + 1 creates the file of counter m, for every m below the limit, making its
      directory if it has to; the runs after that fail. So m runs leave exactly the names
      0 .. m - 1 behind, and nothing else if their directories were there. */
  lemma SuccessiveRuns(c: Conf, fs: Fs, m: nat)
    requires c.WellFormed() && WellFormed(fs) && c.policy == Sequence && c.limit > 0
    requires LiveQs(c.pattern) > 0 && FreshNames(c, fs, c.mkdir) && m <= c.limit
    ensures Runs(c, fs, m).files == WithFirst(c, fs, m).files
    ensures FreshNames(c, fs, false) ==> Runs(c, fs, m) == WithFirst(c, fs, m)
    ensures m < c.limit ==> Search(c, Runs(c, fs, m), 0).0 == Opened(c.PathOf(m))
    ensures m == c.limit ==> Search(c, Runs(c, fs, m), 0).0 == Failed
  {
    AfterRuns(c, fs, m);
    if m < c.limit {
      NextRun(c, fs, Runs(c, fs, m), m);
    } else {
      RunAfterLast(c, fs, Runs(c, fs, m));
    }
  }
}
