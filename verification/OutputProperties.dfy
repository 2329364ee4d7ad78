/** What whole runs of open_output() do to the file system. */
module OutputProperties {
  import opened Expansion
  import opened SequenceNames
  import opened FileSystem
  import opened Directories
  import opened OpenRetry

  /** Where the search stops: at the first counter that is not taken, or after the last one. */
  lemma {:induction false} SearchStops(c: Conf, fs: Fs, n: nat) returns (m: nat)
    requires Reached(c, fs, n)
    ensures n <= m && Reached(c, fs, m) && m <= Bound(c, fs) && Search(c, fs, n) == Search(c, fs, m)
    ensures Try(c, fs, m).Finished? || (m + 1 == c.limit && Search(c, fs, m) == (Failed, fs))
    decreases Bound(c, fs) - n
  {
    ReachedWithinBound(c, fs, n);
    if Try(c, fs, n).Finished? {
      return n;
    }
    NextCounter(c, fs, n);
    if n + 1 < c.limit || c.limit <= 0 {
      m := SearchStops(c, fs, n + 1);
      return;
    }
    m := n;
  }

  /** A search without limit comes to an end if and only if the pattern has a live counter or
      the one name does not exist yet (or does not fit, or can name no file); otherwise every
      counter asks for the next one. */
  lemma EndlessSearch(c: Conf, fs: Fs)
    requires c.WellFormed() && WellFormed(fs) && c.policy == Sequence && c.limit <= 0
    ensures (exists n: nat :: Try(c, fs, n).Finished?) <==> LiveQs(c.pattern) > 0 || !Blocked(c, fs, 0)
    ensures (exists n: nat :: n <= |Entries(fs)| && Try(c, fs, n).Finished?) <==>
            LiveQs(c.pattern) > 0 || !Blocked(c, fs, 0)
  {
    if Ends(c, fs) {
      var m := SearchStops(c, fs, 0);
      assert m <= |Entries(fs)| && Try(c, fs, m).Finished?;
    } else {
      TakenIffExists(c, fs, 0);
      forall n: nat ensures Try(c, fs, n).Taken? {
        SequenceNameIsConstant(c, fs, n);
      }
    }
  }

  /** One such search: the name "/a" without a counter, in a tree that holds the file. */
  lemma EndlessExample()
    ensures var c := Conf("/a", Sequence, 0, false, 1, "/b", 4096);
            var fs := Fs(map[["a"] := ""], {[]}, {}, true);
            c.WellFormed() && WellFormed(fs) && forall n: nat :: Try(c, fs, n).Taken?
  {
    var c := Conf("/a", Sequence, 0, false, 1, "/b", 4096);
    var fs := Fs(map[["a"] := ""], {[]}, {}, true);
    var e := c.EnvOf(0);
    assert "/a"[1..] == "a" && "a"[1..] == "" && ["a"][..0] == [];
    PlainPattern("/a", e, 4096);
    assert Components("/a") == ["a"] by {
      ComponentsOfPlain("a");
    }
    assert LiveQs("/a") == 0 && Blocked(c, fs, 0);
    EndlessSearch(c, fs);
  }

  /** A pattern without escapes stands for itself. */
  lemma {:induction false} PlainExpands(s: string, e: Env)
    requires ESC !in s
    ensures Expand(s, e) == s && LiveQs(s) == 0
  {
    if s != [] {
      assert s[0] in s && forall x :: x in s[1..] ==> x in s;
      PlainExpands(s[1..], e);
    }
  }

  lemma PlainPattern(s: string, e: Env, n: nat)
    requires ESC !in s && |s| < n
    ensures Expand(s, e) == s && LiveQs(s) == 0 && Fits(s, e, n)
  {
    PlainExpands(s, e);
    forall k | 0 <= k <= |s| && Boundary(s, k) ensures MixedForm(s, k, e) + Slack(s, k, e) <= n {
      assert forall x :: x in s[k..] ==> x in s;
      PlainExpands(s[k..], e);
      assert k < |s| ==> s[k] in s;
    }
  }

  // ---------- what one successful open leaves behind ----------

  /** A name at which a new file can be created: it can name a file, its directory is there (or
      will have been made), and entries may be created in it. */
  ghost predicate Ready(fs: Fs, name: string, mkdir: bool) {
    var n := Components(name);
    && n != [] && name != [] && name[|name| - 1] != '/'
    && Parent(n) !in fs.denied && Parent(n) !in fs.files
    && (Parent(n) in fs.dirs || (mkdir && forall a :: a in Ancestors(name, |name|) ==> Makeable(fs, a)))
  }

  /** If every ancestor can be made, walking to one of them never meets a file. */
  lemma {:induction false} NoFileOnTheWay(fs: Fs, name: string, n: Name)
    requires WellFormed(fs) && name != [] && name[0] == '/'
    requires forall a :: a in Ancestors(name, |name|) ==> Makeable(fs, a)
    requires (n in Ancestors(name, |name|) || n == []) && n !in fs.files
    ensures Walk(fs, n) != Error(ENOTDIR)
    decreases |n|
  {
    if n !in fs.dirs {
      var q := AncestorIsCut(name, |name|, n);
      ParentIsEarlier(name, q);
      AncestorsGrow(name, q, |name|);
      NoFileOnTheWay(fs, name, Parent(n));
      WalkReachesDirs(fs, Parent(n));
    }
  }

  /** Creating a new file succeeds exactly where Ready says so. */
  lemma CreatesIffReady(fs: Fs, name: string, mkdir: bool)
    requires WellFormed(fs) && name != [] && name[0] == '/'
    ensures OpenOrMake(fs, name, Sequence, mkdir).0.Done? <==>
            !Exists(fs, Components(name)) && Ready(fs, name, mkdir)
  {
    var n := Components(name);
    if n != [] {
      WalkReachesDirs(fs, Parent(n));
      if Parent(n) !in fs.dirs {
        MakeDirsMakesAncestors(fs, fs, name, 0);
        ParentExists(name);
        if Ready(fs, name, mkdir) {
          NoFileOnTheWay(fs, name, Parent(n));
        }
        CreatesAfterMaking(fs, name);
      }
    }
  }

  lemma CreatesAfterMaking(fs: Fs, name: string)
    requires WellFormed(fs) && name != [] && name[0] == '/' && Components(name) != []
    requires Parent(Components(name)) !in fs.dirs
    ensures var (ok, made) := MakeDirs(fs, name, 0);
            ok ==> (Open(made, name, Sequence).Done? <==>
                    name[|name| - 1] != '/' && Parent(Components(name)) !in fs.files)
  {
    var (ok, made) := MakeDirs(fs, name, 0);
    if ok {
      var n := Components(name);
      MakeDirsMakesAncestors(fs, fs, name, 0);
      ParentExists(name);
      WalkReachesDirs(made, Parent(n));
      if name[|name| - 1] != '/' {
        FileIsNoAncestor(name);
      }
    }
  }

  /** What creating or opening the output did to the files. */
  function OutputFiles(fs: Fs, name: string, p: Policy, done: bool): map<Name, string> {
    if !done || (p == Append && Components(name) in fs.files) then fs.files
    else fs.files[Components(name) := ""]
  }

  /** The only file that changes is the output, and only in the way its policy says. */
  lemma OnlyTheOutputChanges(c: Conf, fs: Fs, counter: nat)
    requires c.WellFormed() && WellFormed(fs)
    ensures var t, name := Try(c, fs, counter), c.PathOf(counter);
            && WellFormed(t.fs) && t.fs.denied == fs.denied
            && fs.dirs <= t.fs.dirs <= fs.dirs + Ancestors(name, |name|)
            && t.fs.files == OutputFiles(fs, name, c.policy, t.Finished? && t.result.Opened?)
            && (t.Finished? && t.result.Opened? ==> t.result.name == name)
  {
    PathOfIsString(c, counter);
    OpenOrMakeChanges(fs, c.PathOf(counter), c.policy, c.mkdir);
  }

  lemma OpenOrMakeChanges(fs: Fs, name: string, p: Policy, mkdir: bool)
    requires WellFormed(fs) && name != [] && name[0] == '/'
    ensures var (r, _, fs') := OpenOrMake(fs, name, p, mkdir);
            && WellFormed(fs') && fs'.denied == fs.denied
            && fs.dirs <= fs'.dirs <= fs.dirs + Ancestors(name, |name|)
            && fs'.files == OutputFiles(fs, name, p, r.Done?)
  {
    MakingChanges(fs, name);
    OpenChanges(fs, name, p);
    OpenChanges(MakeDirs(fs, name, 0).1, name, p);
  }

  lemma MakingChanges(fs: Fs, name: string)
    requires WellFormed(fs) && name != [] && name[0] == '/'
    ensures var made := MakeDirs(fs, name, 0).1;
            && WellFormed(made) && made == fs.(dirs := made.dirs)
            && fs.dirs <= made.dirs <= fs.dirs + Ancestors(name, |name|)
  {
    var q := MakeDirsStops(fs, fs, name, 0);
    AncestorsGrow(name, q, |name|);
  }

  lemma OpenChanges(fs: Fs, name: string, p: Policy)
    requires WellFormed(fs)
    ensures Open(fs, name, p).Done? ==>
              var fs' := Open(fs, name, p).fs;
              && WellFormed(fs') && fs'.dirs == fs.dirs && fs'.denied == fs.denied
              && fs'.files == OutputFiles(fs, name, p, true)
  {
    if Open(fs, name, p).Done? {
      OpenKeepsWellFormed(fs, name, p);
    }
  }

  // ---------- sequence mode ----------

  /** Counter n is the first one that names nothing, and the file can be created. */
  ghost predicate LeastFree(c: Conf, fs: Fs, n: nat) {
    && c.FitsAt(n) && !Exists(fs, Components(c.PathOf(n))) && Ready(fs, c.PathOf(n), c.mkdir)
    && forall i :: 0 <= i < n ==> Blocked(c, fs, i)
  }

  lemma TryInSequence(c: Conf, fs: Fs, n: nat)
    requires c.WellFormed() && WellFormed(fs) && c.policy == Sequence
    ensures Try(c, fs, n).Taken? <==> Blocked(c, fs, n)
    ensures Try(c, fs, n).Finished? && Try(c, fs, n).result.Opened? <==>
              c.FitsAt(n) && !Exists(fs, Components(c.PathOf(n))) && Ready(fs, c.PathOf(n), c.mkdir)
    ensures Try(c, fs, n).Finished? ==> !Try(c, fs, n).result.NullDevice?
  {
    TakenIffExists(c, fs, n);
    PathOfIsString(c, n);
    CreatesIffReady(fs, c.PathOf(n), c.mkdir);
  }

  /** A run in sequence mode succeeds if and only if there is a least free slot among the
      counters it may use; it creates exactly that file and alters no other. */
  lemma LeastFreeSlot(c: Conf, fs: Fs, n: nat)
    requires c.WellFormed() && WellFormed(fs) && c.policy == Sequence && Ends(c, fs)
    requires LeastFree(c, fs, n) && (c.limit > 0 ==> n < c.limit)
    ensures var (r, fs') := Search(c, fs, 0);
            && r == Opened(c.PathOf(n)) && n <= Bound(c, fs)
            && fs'.files == fs.files[Components(c.PathOf(n)) := ""]
            && fs.dirs <= fs'.dirs <= fs.dirs + Ancestors(c.PathOf(n), |c.PathOf(n)|)
            && fs'.denied == fs.denied && WellFormed(fs')
            && (Ready(fs, c.PathOf(n), false) ==> fs' == fs.(files := fs'.files))
  {
    forall i | 0 <= i < n ensures Try(c, fs, i).Taken? {
      TryInSequence(c, fs, i);
    }
    TryInSequence(c, fs, n);
    SearchReaches(c, fs, n);
    ReachedWithinBound(c, fs, n);
    OnlyTheOutputChanges(c, fs, n);
    if Ready(fs, c.PathOf(n), false) {
      NoDirectoriesNeeded(c, fs, n);
    }
  }

  lemma NoDirectoriesNeeded(c: Conf, fs: Fs, n: nat)
    requires c.WellFormed() && WellFormed(fs) && Ready(fs, c.PathOf(n), false)
    ensures Try(c, fs, n).fs == fs.(files := Try(c, fs, n).fs.files)
  {
    WalkReachesDirs(fs, Parent(Components(c.PathOf(n))));
  }

  lemma ReachedEarlier(c: Conf, fs: Fs, n: nat)
    requires Reached(c, fs, n + 1)
    ensures Reached(c, fs, n) && Try(c, fs, n).Taken?
    ensures n + 1 < c.limit || c.limit <= 0
  {
  }

  lemma {:induction false} SearchReaches(c: Conf, fs: Fs, n: nat)
    requires Reached(c, fs, n)
    ensures Reached(c, fs, 0) && Search(c, fs, 0) == Search(c, fs, n)
  {
    if n > 0 {
      ReachedEarlier(c, fs, n - 1);
      NextCounter(c, fs, n - 1);
      SearchReaches(c, fs, n - 1);
    }
  }

  /** The other half: without a least free slot the run fails and no file is touched. */
  lemma NoFreeSlot(c: Conf, fs: Fs)
    requires c.WellFormed() && WellFormed(fs) && c.policy == Sequence && Ends(c, fs)
    requires forall n: nat :: (c.limit > 0 ==> n < c.limit) ==> !LeastFree(c, fs, n)
    ensures var (r, fs') := Search(c, fs, 0);
            r == Failed && fs'.files == fs.files && WellFormed(fs')
  {
    var m := SearchStops(c, fs, 0);
    if Try(c, fs, m).Finished? {
      forall i | 0 <= i < m ensures Blocked(c, fs, i) {
        TryInSequence(c, fs, i);
      }
      TryInSequence(c, fs, m);
      assert !LeastFree(c, fs, m);
      OnlyTheOutputChanges(c, fs, m);
    }
  }

  /** Where every name fits and its directory is there and writable, a run with limit n fails
      if and only if all n names exist. */
  lemma FailsIffFull(c: Conf, fs: Fs)
    requires c.WellFormed() && WellFormed(fs) && c.policy == Sequence && c.limit > 0
    requires forall i :: 0 <= i < c.limit ==> c.FitsAt(i) && Ready(fs, c.PathOf(i), c.mkdir)
    ensures Search(c, fs, 0).0 == Failed <==>
            forall i :: 0 <= i < c.limit ==> Exists(fs, Components(c.PathOf(i)))
  {
    if forall i :: 0 <= i < c.limit ==> Exists(fs, Components(c.PathOf(i))) {
      NoFreeSlot(c, fs);
    } else {
      var n: nat :| n < c.limit && !Exists(fs, Components(c.PathOf(n)));
      var m := FirstFree(c, fs, n);
      LeastFreeSlot(c, fs, m);
    }
  }

  lemma {:induction false} FirstFree(c: Conf, fs: Fs, n: nat) returns (m: nat)
    requires n < c.limit && !Exists(fs, Components(c.PathOf(n)))
    requires forall i :: 0 <= i < c.limit ==> c.FitsAt(i) && Ready(fs, c.PathOf(i), c.mkdir)
    ensures m <= n && LeastFree(c, fs, m)
  {
    if i: nat :| i < n && !Exists(fs, Components(c.PathOf(i))) {
      m := FirstFree(c, fs, i);
    } else {
      m := n;
      forall i | 0 <= i < n ensures Blocked(c, fs, i) {
        assert Exists(fs, Components(c.PathOf(i)));
      }
    }
  }
}
