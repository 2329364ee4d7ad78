/** make_path(): creating every missing directory on the way to an output file. */
module Directories {
  import opened Text
  import opened FileSystem

  /** make_path() from index p on, in a tree that nobody else changes. */
  function MakeDirs(fs: Fs, path: string, p: nat): (bool, Fs)
    requires p <= |path|
    decreases |path| - p
  {
    if p == |path| then (true, fs)
    else if path[p] == '/' && p != 0 then
      match Mkdir(fs, path[..p])
      case Done(fs') => MakeDirs(fs', path, p + 1)
      case Error(EEXIST) => MakeDirs(fs, path, p + 1)
      case _ => (false, fs)
    else MakeDirs(fs, path, p + 1)
  }

  /** mkdir() of the path cut at the slash at p; the buffer is mended afterwards. */
  method MakeCut(k: Kernel, path: array<char>, from: nat, p: nat) returns (r: SysResult)
    requires from <= p < path.Length && path[p] == '/' && NUL !in path[from..p]
    modifies k, path
    ensures path[..] == old(path[..]) && k.opens == old(k.opens)
    ensures k.Quiet() ==> r == Mkdir(old(k.fs), old(path[from..p]))
    ensures k.Quiet() ==> k.fs == if r.Done? then r.fs else old(k.fs)
  {
    ghost var cut := path[from..p];
    path[p] := NUL;
    assert path[from..][p - from] == NUL && cut + [NUL] <= path[from..];
    CStringIs(path[from..], cut);
    r := k.MkdirCall(CString(path[from..]));
    path[p] := '/';
  }

  /** make_path(): cuts the path in the buffer at every slash, and mends it again. */
  method MakePath(k: Kernel, path: array<char>, from: nat) returns (ok: bool)
    requires from <= path.Length && NUL in path[from..]
    modifies k, path
    ensures path[..] == old(path[..])
    ensures k.opens == old(k.opens)
    ensures k.Quiet() ==> (ok, k.fs) == MakeDirs(old(k.fs), CString(old(path[from..])), 0)
  {
    ghost var str, was, fs0 := CString(path[from..]), path[..], k.fs;
    var p := from;
    assert path[from..][..|str|] == str && path[from + |str|] == path[from..][|str|] == NUL;
    assert forall q :: 0 <= q < |str| ==> str[q] in str;
    while path[p] != NUL
      invariant from <= p <= from + |str|
      invariant path[..] == was
      invariant was[from..from + |str|] == str && was[from + |str|] == NUL
      invariant k.opens == old(k.opens)
      invariant k.Quiet() ==> MakeDirs(fs0, str, 0) == MakeDirs(k.fs, str, p - from)
      decreases from + |str| - p
    {
      assert p < from + |str| && path[p] == str[p - from];
      if path[p] == '/' && p != from {
        assert path[from..p] == str[..p - from];
        var r := MakeCut(k, path, from, p);
        if r.Error? && r.errno != EEXIST {
          return false;
        }
      }
      p := p + 1;
    }
    ok := true;
  }

  /** The directories that make_path() wants: one for every slash after the first character. */
  function Ancestors(path: string, p: nat): (s: set<Name>)
    requires p <= |path|
  {
    if p == 0 then {} else
      Ancestors(path, p - 1) +
      (if p - 1 > 0 && path[p - 1] == '/' then {Components(path[..p - 1])} else {})
  }

  lemma {:induction false} CutIsAncestor(path: string, p: nat, q: nat)
    requires 0 < q < p <= |path| && path[q] == '/'
    ensures Components(path[..q]) in Ancestors(path, p)
  {
    if q < p - 1 {
      CutIsAncestor(path, p - 1, q);
    }
  }

  lemma {:induction false} AncestorIsCut(path: string, p: nat, n: Name) returns (q: nat)
    requires p <= |path| && n in Ancestors(path, p)
    ensures 0 < q < p && path[q] == '/' && n == Components(path[..q])
  {
    q := p - 1;
    if n in Ancestors(path, p - 1) {
      q := AncestorIsCut(path, p - 1, n);
    }
  }

  lemma {:induction false} AncestorsGrow(path: string, q: nat, p: nat)
    requires q <= p <= |path|
    ensures Ancestors(path, q) <= Ancestors(path, p)
  {
    if q < p {
      AncestorsGrow(path, q, p - 1);
    }
  }

  /** The tree after p characters of make_path(). */
  ghost predicate MadeUpTo(fs: Fs, fs': Fs, path: string, p: nat)
    requires p <= |path|
  {
    && WellFormed(fs')
    && fs' == fs.(dirs := fs'.dirs)
    && fs'.dirs == fs.dirs + (Ancestors(path, p) - fs.files.Keys)
  }

  /** The directory n is there, or can be created once its own ancestors have been. */
  predicate Makeable(fs: Fs, n: Name) {
    n == [] || Exists(fs, n) || (Parent(n) !in fs.files && Parent(n) !in fs.denied)
  }

  lemma LastComponent(path: string, p: nat, q: nat)
    requires q < p <= |path| && path[q] == '/' && '/' !in path[q + 1..p]
    ensures Components(path[..p]) == Components(path[..q]) + (if q + 1 == p then [] else [path[q + 1..p]])
  {
    var c := path[q + 1..p];
    assert path[..p] == path[..q] + (['/'] + c) && (['/'] + c)[1..] == c;
    ComponentsConcat(path[..q], ['/'] + c);
    ComponentsOfPlain(c);
  }

  /** The parent of every part of a path up to a slash, or of the whole path, is the root or an
      earlier ancestor. */
  lemma {:induction false} ParentIsEarlier(path: string, p: nat)
    requires p <= |path| && path != [] && path[0] == '/' && Components(path[..p]) != []
    ensures Parent(Components(path[..p])) == [] || Parent(Components(path[..p])) in Ancestors(path, p)
    decreases p
  {
    assert path[..0] == [] && p > 0;
    var q := LastSlash(path[..p]);
    assert path[..p][q + 1..] == path[q + 1..p];
    LastComponent(path, p, q);
    if q + 1 == p {
      assert Components(path[..p]) == Components(path[..q]);
      ParentIsEarlier(path, q);
      AncestorsGrow(path, q, p);
    } else {
      assert Parent(Components(path[..p])) == Components(path[..q]);
      if q > 0 {
        CutIsAncestor(path, p, q);
      }
    }
  }

  function LastSlash(s: string): (q: nat)
    requires s != [] && s[0] == '/'
    ensures q < |s| && s[q] == '/' && '/' !in s[q + 1..]
  {
    if s[|s| - 1] == '/' then |s| - 1 else
      var q := LastSlash(s[..|s| - 1]);
      assert s[q + 1..] == s[..|s| - 1][q + 1..] + [s[|s| - 1]];
      q
  }

  /** One directory: it is there afterwards, or a file is, or creating it was impossible. */
  lemma MakeOne(fs: Fs, fs': Fs, path: string, p: nat)
    requires WellFormed(fs) && p < |path| && path[p] == '/' && path[0] == '/' && p > 0
    requires MadeUpTo(fs, fs', path, p)
    requires forall n :: n in Ancestors(path, p) ==> Makeable(fs, n)
    ensures var n, r := Components(path[..p]), Mkdir(fs', path[..p]);
            if !Makeable(fs, n) then r.Error? && r.errno != EEXIST
            else if r.Done? then MadeUpTo(fs, r.fs, path, p + 1)
            else r.errno == EEXIST && MadeUpTo(fs, fs', path, p + 1)
  {
    var n := Components(path[..p]);
    if n != [] {
      ParentIsEarlier(path, p);
      WalkReachesDirs(fs', Parent(n));
      if Mkdir(fs', path[..p]).Done? {
        MkdirKeepsWellFormed(fs', path[..p]);
      }
    }
  }

  /** make_path() succeeds exactly when every missing ancestor can be created; it then leaves
      precisely the missing ancestors behind. */
  lemma {:induction false} MakeDirsMakesAncestors(fs: Fs, fs': Fs, path: string, p: nat)
    requires WellFormed(fs) && p <= |path| && (path == [] || path[0] == '/')
    requires MadeUpTo(fs, fs', path, p)
    requires forall n :: n in Ancestors(path, p) ==> Makeable(fs, n)
    ensures var (ok, made) := MakeDirs(fs', path, p);
            && (ok <==> forall n :: n in Ancestors(path, |path|) ==> Makeable(fs, n))
            && (ok ==> MadeUpTo(fs, made, path, |path|))
    decreases |path| - p
  {
    if p < |path| {
      if path[p] == '/' && p != 0 {
        MakeOne(fs, fs', path, p);
        var n := Components(path[..p]);
        if Makeable(fs, n) {
          match Mkdir(fs', path[..p])
          case Done(made) => MakeDirsMakesAncestors(fs, made, path, p + 1);
          case Error(_) => MakeDirsMakesAncestors(fs, fs', path, p + 1);
        } else {
          CutIsAncestor(path, |path|, p);
        }
      } else {
        MakeDirsMakesAncestors(fs, fs', path, p + 1);
      }
    }
  }

  /** Where make_path() fails, it leaves the missing ancestors before the first obstacle. */
  lemma {:induction false} MakeDirsStops(fs: Fs, fs': Fs, path: string, p: nat) returns (q: nat)
    requires WellFormed(fs) && p <= |path| && (path == [] || path[0] == '/')
    requires MadeUpTo(fs, fs', path, p)
    requires forall n :: n in Ancestors(path, p) ==> Makeable(fs, n)
    ensures p <= q <= |path| && MadeUpTo(fs, MakeDirs(fs', path, p).1, path, q)
    ensures forall n :: n in Ancestors(path, q) ==> Makeable(fs, n)
    ensures q == |path| || (q > 0 && path[q] == '/' && !Makeable(fs, Components(path[..q])))
    decreases |path| - p
  {
    q := p;
    if p < |path| {
      if path[p] == '/' && p != 0 {
        MakeOne(fs, fs', path, p);
        if Makeable(fs, Components(path[..p])) {
          match Mkdir(fs', path[..p])
          case Done(made) => q := MakeDirsStops(fs, made, path, p + 1);
          case Error(_) => q := MakeDirsStops(fs, fs', path, p + 1);
        }
      } else {
        q := MakeDirsStops(fs, fs', path, p + 1);
      }
    }
  }

  /** After make_path() has succeeded, opening the same path cannot report ENOENT. */
  lemma NoEntryOnlyOnce(fs: Fs, path: string, policy: Policy)
    requires WellFormed(fs) && path != [] && path[0] == '/'
    requires MakeDirs(fs, path, 0).0
    ensures Open(MakeDirs(fs, path, 0).1, path, policy) != Error(ENOENT)
  {
    var made := MakeDirs(fs, path, 0).1;
    MakeDirsMakesAncestors(fs, fs, path, 0);
    var n := Components(path);
    if n != [] {
      ParentExists(path);
      WalkReachesDirs(made, Parent(n));
    }
  }

  lemma ParentExists(path: string)
    requires path != [] && path[0] == '/' && Components(path) != []
    ensures Parent(Components(path)) == [] || Parent(Components(path)) in Ancestors(path, |path|)
  {
    assert path[..|path|] == path;
    ParentIsEarlier(path, |path|);
  }
}
