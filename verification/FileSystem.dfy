/**
 The file system as open(2) and mkdir(2) see it: path names are looked up as their non-empty
 components, and other processes may change the tree between any two calls.
 */
module FileSystem {
  import opened SequenceNames

  type Name = seq<string>

  function SlashAt(s: string): (k: nat)
    ensures k <= |s| && '/' !in s[..k] && (k < |s| ==> s[k] == '/')
  {
    if s == [] || s[0] == '/' then 0 else
      var k := SlashAt(s[1..]);
      assert s[..k + 1] == [s[0]] + s[1..][..k];
      k + 1
  }

  /** The components of a path name; empty ones do not count. */
  function Components(p: string): (n: Name)
    decreases |p|
  {
    if p == [] then []
    else if p[0] == '/' then Components(p[1..])
    else [p[..SlashAt(p)]] + Components(p[SlashAt(p)..])
  }

  lemma {:induction false} SlashAtConcat(a: string, b: string)
    requires b == [] || b[0] == '/'
    ensures SlashAt(a + b) == SlashAt(a) && (a + b)[..SlashAt(a)] == a[..SlashAt(a)]
    ensures (a + b)[SlashAt(a)..] == a[SlashAt(a)..] + b
  {
    if a != [] && a[0] != '/' {
      assert (a + b)[1..] == a[1..] + b;
      SlashAtConcat(a[1..], b);
    }
  }

  lemma {:induction false} ComponentsConcat(a: string, b: string)
    requires b == [] || b[0] == '/'
    ensures Components(a + b) == Components(a) + Components(b)
    decreases |a|
  {
    if a == [] {
      assert a + b == b;
    } else if a[0] == '/' {
      assert (a + b)[1..] == a[1..] + b;
      ComponentsConcat(a[1..], b);
    } else {
      SlashAtConcat(a, b);
      ComponentsConcat(a[SlashAt(a)..], b);
    }
  }

  lemma {:induction false} ComponentsOfPlain(c: string)
    requires '/' !in c
    ensures Components(c) == if c == [] then [] else [c]
  {
    if c != [] {
      var k := SlashAt(c);
      assert k == |c| && c[..k] == c && c[k..] == [];
    }
  }

  function Flatten(n: Name): string {
    if n == [] then [] else n[0] + Flatten(n[1..])
  }

  /** Path names with the same components have the same characters between the slashes. */
  lemma {:induction false} FlattenComponents(p: string)
    ensures Flatten(Components(p)) == NoSlash(p)
    decreases |p|
  {
    if p == [] {
    } else if p[0] == '/' {
      FlattenComponents(p[1..]);
    } else {
      var k := SlashAt(p);
      FlattenComponents(p[k..]);
      assert p == p[..k] + p[k..];
      NoSlashConcat(p[..k], p[k..]);
      NoSlashOfPlain(p[..k]);
      assert Components(p)[1..] == Components(p[k..]);
    }
  }

  lemma {:induction false} NoSlashOfPlain(c: string)
    requires '/' !in c
    ensures NoSlash(c) == c
  {
    if c != [] {
      assert c[0] in c && forall x :: x in c[1..] ==> x in c;
      NoSlashOfPlain(c[1..]);
    }
  }

  // ---------- the tree ----------

  /** `denied` are the directories in which this process may not create entries, and
      `nullDevice` says whether /dev/null can be opened. */
  datatype Fs = Fs(files: map<Name, string>, dirs: set<Name>, denied: set<Name>, nullDevice: bool)

  predicate Exists(fs: Fs, n: Name) {
    n in fs.files || n in fs.dirs
  }

  function Parent(n: Name): Name
    requires n != []
  {
    n[..|n| - 1]
  }

  /** The directories are closed under prefixes, and everything lies in a directory. */
  ghost predicate WellFormed(fs: Fs) {
    && [] in fs.dirs
    && (forall n :: Exists(fs, n) && n != [] ==> Parent(n) in fs.dirs)
    && fs.files.Keys !! fs.dirs
    && fs.denied <= fs.dirs
  }

  datatype Errno = EEXIST | ENOENT | ENOTDIR | EISDIR | EACCES

  datatype SysResult = Done(fs: Fs) | Error(errno: Errno)

  /** The error of walking to a directory, if any: the first component that is missing or is
      not a directory decides. */
  function Walk(fs: Fs, n: Name): (r: SysResult) {
    if n in fs.dirs then Done(fs)
    else if n == [] then Error(ENOENT)
    else if Walk(fs, Parent(n)).Error? then Walk(fs, Parent(n))
    else Error(if n in fs.files then ENOTDIR else ENOENT)
  }

  function Mkdir(fs: Fs, path: string): SysResult {
    var n := Components(path);
    if n == [] || Exists(fs, n) then Error(EEXIST)
    else if Walk(fs, Parent(n)).Error? then Walk(fs, Parent(n))
    else if Parent(n) in fs.denied then Error(EACCES)
    else Done(fs.(dirs := fs.dirs + {n}))
  }

  /** How an existing output is treated (enum conf_exists_e). */
  datatype Policy = Append | Overwrite | Keep | Sequence

  /** The policies that open with O_EXCL. */
  predicate Exclusive(p: Policy) {
    p == Keep || p == Sequence
  }

  /** open(path, O_WRONLY | O_CREAT | O_CLOEXEC | ..., 0600) */
  function Open(fs: Fs, path: string, p: Policy): SysResult {
    var n := Components(path);
    if n == [] then Error(if Exclusive(p) then EEXIST else EISDIR)
    else if Walk(fs, Parent(n)).Error? then Walk(fs, Parent(n))
    else if path[|path| - 1] == '/' then Error(EISDIR)
    else if n in fs.files then
      (match p
       case Append => Done(fs)
       case Overwrite => Done(fs.(files := fs.files[n := ""]))
       case _ => Error(EEXIST))
    else if n in fs.dirs then Error(if Exclusive(p) then EEXIST else EISDIR)
    else if Parent(n) in fs.denied then Error(EACCES)
    else Done(fs.(files := fs.files[n := ""]))
  }

  /** The kernel; `interfere` is what other processes do to the tree before call number n. */
  class Kernel {
    var fs: Fs
    var calls: nat
    var opens: nat
    const interfere: (nat, Fs) -> Fs

    constructor (fs: Fs, interfere: (nat, Fs) -> Fs)
      ensures this.fs == fs && this.interfere == interfere && calls == opens == 0
    {
      this.fs, this.interfere, calls, opens := fs, interfere, 0, 0;
    }

    /** No other process touches the tree. */
    ghost predicate Quiet() {
      forall n: nat, f: Fs :: interfere(n, f) == f
    }

    method OpenCall(path: string, p: Policy) returns (r: SysResult)
      modifies this
      ensures opens == old(opens) + 1
      ensures Quiet() ==> r == Open(old(fs), path, p) && fs == if r.Done? then r.fs else old(fs)
    {
      fs := interfere(calls, fs);
      calls, opens := calls + 1, opens + 1;
      r := Open(fs, path, p);
      if r.Done? {
        fs := r.fs;
      }
    }

    /** open("/dev/null", O_WRONLY | O_CLOEXEC) */
    method OpenNull() returns (ok: bool)
      modifies this
      ensures opens == old(opens)
      ensures Quiet() ==> ok == old(fs).nullDevice && fs == old(fs)
    {
      fs := interfere(calls, fs);
      calls := calls + 1;
      ok := fs.nullDevice;
    }

    method MkdirCall(path: string) returns (r: SysResult)
      modifies this
      ensures opens == old(opens)
      ensures Quiet() ==> r == Mkdir(old(fs), path) && fs == if r.Done? then r.fs else old(fs)
    {
      fs := interfere(calls, fs);
      calls := calls + 1;
      r := Mkdir(fs, path);
      if r.Done? {
        fs := r.fs;
      }
    }
  }

  lemma MkdirKeepsWellFormed(fs: Fs, path: string)
    requires WellFormed(fs) && Mkdir(fs, path).Done?
    ensures WellFormed(Mkdir(fs, path).fs) && Mkdir(fs, path).fs.files == fs.files
  {
    WalkReachesDirs(fs, Parent(Components(path)));
  }

  lemma OpenKeepsWellFormed(fs: Fs, path: string, p: Policy)
    requires WellFormed(fs) && Open(fs, path, p).Done?
    ensures WellFormed(Open(fs, path, p).fs) && Open(fs, path, p).fs.dirs == fs.dirs
  {
    WalkReachesDirs(fs, Parent(Components(path)));
  }

  /** Walking succeeds exactly on directories, and blames a missing component only if one is
      missing. */
  lemma {:induction false} WalkReachesDirs(fs: Fs, n: Name)
    requires WellFormed(fs)
    ensures Walk(fs, n).Done? <==> n in fs.dirs
    ensures Walk(fs, n).Error? ==> Walk(fs, n).errno in {ENOENT, ENOTDIR}
    ensures Walk(fs, n) == Error(ENOENT) ==> !Exists(fs, n)
  {
    if n !in fs.dirs {
      WalkReachesDirs(fs, Parent(n));
    }
  }
}
