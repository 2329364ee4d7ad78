/** What open_output() answers under each policy, in a tree that nobody else changes. */
module PolicyProperties {
  import opened FileSystem
  import opened Directories
  import opened OpenRetry
  import opened OutputProperties

  /** The one name of an output that is no sequence. */
  function NameOf(c: Conf): string {
    c.PathOf(0)
  }

  /** Something has the name, so that an exclusive open() is refused. */
  ghost predicate NameTaken(c: Conf, fs: Fs) {
    var n := Components(NameOf(c));
    c.FitsAt(0) && Exists(fs, n) && (n == [] || NameOf(c)[|NameOf(c)| - 1] != '/')
  }

  /** A file has the name. */
  ghost predicate NamesFile(c: Conf, fs: Fs) {
    c.FitsAt(0) && Components(NameOf(c)) in fs.files && NameOf(c) != [] && NameOf(c)[|NameOf(c)| - 1] != '/'
  }

  /** Nothing has the name, and a file can be created there, after its directories if those may
      be made. */
  ghost predicate Creatable(c: Conf, fs: Fs) {
    c.FitsAt(0) && !Exists(fs, Components(NameOf(c))) && Ready(fs, NameOf(c), c.mkdir)
  }

  /** Where nothing has the name, all policies are the same to open(). */
  lemma SameWhereFree(fs: Fs, name: string, p: Policy, q: Policy)
    requires Components(name) != [] && !Exists(fs, Components(name))
    ensures Open(fs, name, p) == Open(fs, name, q)
  {
  }

  lemma SameAfterMaking(fs: Fs, name: string, p: Policy, q: Policy)
    requires WellFormed(fs) && name != [] && name[0] == '/' && Components(name) != []
    requires !Exists(fs, Components(name)) && MakeDirs(fs, name, 0).0
    ensures Open(MakeDirs(fs, name, 0).1, name, p) == Open(MakeDirs(fs, name, 0).1, name, q)
  {
    var made := MakeDirs(fs, name, 0).1;
    MakeDirsMakesAncestors(fs, fs, name, 0);
    if name[|name| - 1] != '/' {
      FileIsNoAncestor(name);
      SameWhereFree(made, name, p, q);
    }
  }

  /** Opening a name that is free does not depend on the policy. */
  lemma FreeNameOpens(fs: Fs, name: string, p: Policy, mkdir: bool)
    requires WellFormed(fs) && name != [] && name[0] == '/' && Components(name) != []
    requires !Exists(fs, Components(name))
    ensures var o := OpenOrMake(fs, name, p, mkdir);
            && o.0 != Error(EEXIST) && (o.0.Done? <==> Ready(fs, name, mkdir))
  {
    SameWhereFree(fs, name, p, Sequence);
    if MakeDirs(fs, name, 0).0 {
      SameAfterMaking(fs, name, p, Sequence);
    }
    CreatesIffReady(fs, name, mkdir);
    RefusedIffExists(fs, name, mkdir);
  }

  /** Opening a name that something has, or the root. */
  lemma TakenNameOpens(fs: Fs, name: string, p: Policy, mkdir: bool)
    requires WellFormed(fs) && name != [] && name[0] == '/'
    requires Components(name) == [] || Exists(fs, Components(name))
    ensures var o, n := OpenOrMake(fs, name, p, mkdir), Components(name);
            && (o.0.Done? <==> !Exclusive(p) && n in fs.files && name[|name| - 1] != '/')
            && (o.0 == Error(EEXIST) <==> Exclusive(p) && (n == [] || name[|name| - 1] != '/'))
            && (o.0.Error? ==> o.2 == fs)
  {
    var n := Components(name);
    if n != [] {
      WalkReachesDirs(fs, Parent(n));
    }
  }

  lemma ResultIsTry(c: Conf, fs: Fs)
    requires c.WellFormed() && WellFormed(fs) && c.policy != Sequence
    ensures Ends(c, fs) && Try(c, fs, 0).Finished?
    ensures Search(c, fs, 0) == (Try(c, fs, 0).result, Try(c, fs, 0).fs)
  {
  }

  /** "append" and "overwrite": the output is open if and only if a file has its name or one can
      be created there; otherwise opening has failed. */
  lemma WritingPolicies(c: Conf, fs: Fs)
    requires c.WellFormed() && WellFormed(fs) && (c.policy == Append || c.policy == Overwrite)
    ensures Ends(c, fs)
    ensures Search(c, fs, 0).0 ==
            if NamesFile(c, fs) || Creatable(c, fs) then Opened(NameOf(c)) else Failed
  {
    ResultIsTry(c, fs);
    PathOfIsString(c, 0);
    if Components(NameOf(c)) == [] || Exists(fs, Components(NameOf(c))) {
      TakenNameOpens(fs, NameOf(c), c.policy, c.mkdir);
    } else {
      FreeNameOpens(fs, NameOf(c), c.policy, c.mkdir);
    }
  }

  /** "keep": the output is open if and only if a file could be created at its name; it is the
      null device if and only if something has the name already and the null device can be
      opened, and then nothing has changed; otherwise opening has failed. */
  lemma KeepPolicy(c: Conf, fs: Fs)
    requires c.WellFormed() && WellFormed(fs) && c.policy == Keep
    ensures Ends(c, fs)
    ensures Search(c, fs, 0).0 == Opened(NameOf(c)) <==> Creatable(c, fs)
    ensures Search(c, fs, 0).0 == NullDevice(NameOf(c)) <==> NameTaken(c, fs) && fs.nullDevice
    ensures NameTaken(c, fs) ==> Search(c, fs, 0).1 == fs
    ensures !Creatable(c, fs) && !(NameTaken(c, fs) && fs.nullDevice) ==> Search(c, fs, 0).0 == Failed
  {
    ResultIsTry(c, fs);
    PathOfIsString(c, 0);
    var name := NameOf(c);
    if Components(name) == [] || Exists(fs, Components(name)) {
      TakenNameOpens(fs, name, Keep, c.mkdir);
      if NameTaken(c, fs) {
        assert Try(c, fs, 0).fs == fs;
      }
    } else {
      FreeNameOpens(fs, name, Keep, c.mkdir);
      MakingKeepsNull(c, fs);
    }
  }

  lemma MakingKeepsNull(c: Conf, fs: Fs)
    requires c.WellFormed() && WellFormed(fs)
    ensures MakeDirs(fs, NameOf(c), 0).1.nullDevice == fs.nullDevice
  {
    PathOfIsString(c, 0);
    var q := MakeDirsStops(fs, fs, NameOf(c), 0);
  }

  /** A name that does not fit is never opened, under any policy. */
  lemma NoRoomFails(c: Conf, fs: Fs)
    requires c.WellFormed() && WellFormed(fs) && !c.FitsAt(0)
    ensures Ends(c, fs) && Search(c, fs, 0) == (Failed, fs)
  {
  }

  /** The file of an output that was opened: "append" leaves what it held, every other policy
      leaves it empty; nothing else is touched. */
  lemma OpenedFile(c: Conf, fs: Fs)
    requires c.WellFormed() && WellFormed(fs) && c.policy != Sequence
    ensures Ends(c, fs)
    ensures var (r, fs') := Search(c, fs, 0);
            var n := Components(NameOf(c));
            && (r == Opened(NameOf(c)) ==> n in fs'.files)
            && (r == Opened(NameOf(c)) ==>
                  fs'.files[n] == if c.policy == Append && n in fs.files then fs.files[n] else "")
            && (forall m :: m != n ==> (m in fs'.files <==> m in fs.files))
            && (forall m :: m != n && m in fs.files ==> fs'.files[m] == fs.files[m])
            && (r != Opened(NameOf(c)) ==> fs'.files == fs.files)
  {
    ResultIsTry(c, fs);
    OnlyTheOutputChanges(c, fs, 0);
  }
}
