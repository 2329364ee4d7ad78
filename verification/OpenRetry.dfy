/**
 open_output() up to the open file: the loop over sequence numbers ("restart") and the second
 attempt after the directories have been made ("reopen").
 */
module OpenRetry {
  import opened Basics
  import opened Text
  import opened Expansion
  import opened InPlace
  import opened SequenceNames
  import opened FileSystem
  import opened Directories

  /** struct conf_output_s with the pattern as strftime() leaves it, and what the wild cards
      stand for. */
  datatype Conf = Conf(pattern: string, policy: Policy, limit: int, mkdir: bool, pid: int, exe: string, size: nat)
  {
    function EnvOf(counter: nat): Env {
      EnvAt(pid, exe, limit, counter)
    }

    function PathOf(counter: nat): string {
      Expand(pattern, EnvOf(counter))
    }

    ghost predicate FitsAt(counter: nat) {
      Fits(pattern, EnvOf(counter), size)
    }

    predicate Storable() {
      |pattern| < size && NUL !in pattern && NUL !in exe
    }

    /** Only full path names are accepted. */
    predicate WellFormed() {
      Storable() && pattern != [] && pattern[0] == '/'
    }
  }

  /** The output is open, or goes to the null device because its name exists or because none is
      set, or could not be opened. */
  datatype Result = Opened(name: string) | NullDevice(name: string) | Discarded | Failed

  /** The "reopen" loop for one name, in a tree that nobody else changes: the result of the
      last open(), whether make_path() succeeded in between, and the tree. */
  function OpenOrMake(fs: Fs, name: string, p: Policy, mkdir: bool): (SysResult, bool, Fs) {
    var r := Open(fs, name, p);
    if r == Error(ENOENT) && mkdir then
      var (ok, made) := MakeDirs(fs, name, 0);
      var again := Open(made, name, p);
      if !ok then (r, false, made)
      else (again, true, if again.Done? then again.fs else made)
    else (r, false, if r.Done? then r.fs else fs)
  }

  /** What one counter leads to; `Taken` asks for the next counter. */
  datatype Attempt = Finished(result: Result, fs: Fs) | Taken(fs: Fs)

  /** What follows from the last open() of one name. */
  function Conclude(c: Conf, name: string, r: SysResult, fs: Fs): Attempt {
    if r.Done? then Finished(Opened(name), fs)
    else if r.errno == EEXIST && c.policy == Keep then
      Finished(if fs.nullDevice then NullDevice(name) else Failed, fs)
    else if r.errno == EEXIST && c.policy == Sequence then Taken(fs)
    else Finished(Failed, fs)
  }

  ghost function Try(c: Conf, fs: Fs, counter: nat): Attempt {
    if c.FitsAt(counter) then
      var o := OpenOrMake(fs, c.PathOf(counter), c.policy, c.mkdir);
      Conclude(c, c.PathOf(counter), o.0, o.2)
    else Finished(Failed, fs)
  }

  lemma PathOfIsString(c: Conf, counter: nat)
    requires c.WellFormed()
    ensures NUL !in c.PathOf(counter) && c.PathOf(counter) != [] && c.PathOf(counter)[0] == '/'
  {
    DecimalHasNoNul(c.pid);
    ValueOfZeroPadded(SeqLen(c.limit, counter), counter);
    ExpandHasNoNul(c.pattern, c.EnvOf(counter));
  }

  lemma DecimalHasNoNul(n: int)
    ensures NUL !in Decimal(n)
  {
    var d := Digits(if n < 0 then -n else n, 10);
    assert forall k :: 0 <= k < |d| ==> IsDigit(d[k], 10);
  }

  lemma {:induction false} ExpandHasNoNul(s: string, e: Env)
    requires NUL !in s && NUL !in e.exe && NUL !in e.pid && NUL !in e.sequence
    ensures NUL !in Expand(s, e)
    decreases |s|
  {
    if s == [] {
    } else if s[0] != ESC || |s| == 1 {
      assert s[0] in s && forall x :: x in s[1..] ==> x in s;
      ExpandHasNoNul(s[1..], e);
    } else {
      assert s[1] in s && forall x :: x in s[2..] ==> x in s;
      ExpandHasNoNul(s[2..], e);
      WildCardHasNoNul(s[1], e);
    }
  }

  lemma WildCardHasNoNul(x: char, e: Env)
    requires x != NUL && NUL !in e.exe && NUL !in e.pid && NUL !in e.sequence
    ensures NUL !in WildCard(x, e)
  {
    if x == 'E' {
      BangNameHasNoNul(e.exe);
    } else if x == 'e' {
      BaseNameHasNoNul(e.exe);
    }
  }

  lemma BangNameHasNoNul(exe: string)
    requires NUL !in exe
    ensures NUL !in BangName(exe)
  {
    forall k | 0 <= k < |exe| ensures BangName(exe)[k] != NUL {
      BangNameAt(exe, k);
      assert exe[k] in exe;
    }
  }

  lemma BaseNameHasNoNul(exe: string)
    requires NUL !in exe
    ensures NUL !in BaseName(exe)
  {
    BaseNameIsLastPart(exe);
    assert forall c :: c in exe[|exe| - |BaseName(exe)|..] ==> c in exe;
  }

  lemma {:induction false} ComponentsNotEmpty(s: string)
    requires s != [] && s[|s| - 1] != '/'
    ensures Components(s) != []
  {
    if s[0] == '/' {
      ComponentsNotEmpty(s[1..]);
    }
  }

  lemma FileIsNoAncestor(path: string)
    requires path != [] && path[|path| - 1] != '/'
    ensures Components(path) !in Ancestors(path, |path|)
  {
    if Components(path) in Ancestors(path, |path|) {
      var q := AncestorIsCut(path, |path|, Components(path));
      MoreComponents(path, q);
      assert false;
    }
  }

  lemma MoreComponents(path: string, q: nat)
    requires q < |path| && path[q] == '/' && path[|path| - 1] != '/'
    ensures Components(path) != Components(path[..q])
  {
    var a, b := path[..q], path[q..];
    assert path == a + b && b[|b| - 1] == path[|path| - 1];
    ComponentsConcat(a, b);
    ComponentsNotEmpty(b);
  }

  /** An exclusive open is refused with EEXIST exactly when the name exists (and can name a
      file); nothing has happened to the tree then. */
  lemma RefusedIffExists(fs: Fs, name: string, mkdir: bool)
    requires WellFormed(fs) && name != [] && name[0] == '/'
    ensures var (r, made, fs') := OpenOrMake(fs, name, Sequence, mkdir);
            var n := Components(name);
            && (r == Error(EEXIST) <==> Exists(fs, n) && (n == [] || name[|name| - 1] != '/'))
            && (r == Error(EEXIST) ==> fs' == fs && !made)
  {
    var n := Components(name);
    if n != [] {
      WalkReachesDirs(fs, Parent(n));
      if Open(fs, name, Sequence) == Error(ENOENT) && mkdir && MakeDirs(fs, name, 0).0 {
        NotRefusedAgain(fs, name);
      }
    }
  }

  lemma NotRefusedAgain(fs: Fs, name: string)
    requires WellFormed(fs) && name != [] && name[0] == '/' && Components(name) != []
    requires !Exists(fs, Components(name)) && MakeDirs(fs, name, 0).0
    ensures Open(MakeDirs(fs, name, 0).1, name, Sequence) != Error(EEXIST)
  {
    var made := MakeDirs(fs, name, 0).1;
    MakeDirsMakesAncestors(fs, fs, name, 0);
    WalkReachesDirs(made, Parent(Components(name)));
    if name[|name| - 1] != '/' {
      FileIsNoAncestor(name);
    }
  }

  /** Counter n names something that exists. */
  ghost predicate Blocked(c: Conf, fs: Fs, n: nat) {
    var name := c.PathOf(n);
    c.FitsAt(n) && Exists(fs, Components(name)) && (Components(name) == [] || name[|name| - 1] != '/')
  }

  /** A counter is skipped exactly when its name fits and exists. */
  lemma TakenIffExists(c: Conf, fs: Fs, counter: nat)
    requires c.WellFormed() && WellFormed(fs) && c.policy == Sequence
    ensures Try(c, fs, counter).Taken? <==> Blocked(c, fs, counter)
    ensures Try(c, fs, counter).Taken? ==> Try(c, fs, counter).fs == fs
  {
    PathOfIsString(c, counter);
    RefusedIffExists(fs, c.PathOf(counter), c.mkdir);
  }

  // ---------- how long the search can take ----------

  /** Without limit and live counter, all counters lead to the same attempt. */
  lemma SequenceNameIsConstant(c: Conf, fs: Fs, n: nat)
    requires c.limit <= 0 && LiveQs(c.pattern) == 0
    ensures Try(c, fs, n) == Try(c, fs, 0)
  {
    NameIgnoresCounter(c.pattern, c.EnvOf(n), c.EnvOf(0));
    assert c.PathOf(n) == c.PathOf(0);
    FitIgnoresCounter(c.pattern, c.EnvOf(n), c.EnvOf(0), c.size);
    assert c.FitsAt(n) == c.FitsAt(0);
  }

  lemma FitIgnoresCounter(s: string, e: Env, f: Env, size: nat)
    requires SameButCounter(e, f) && LiveQs(s) == 0
    ensures Fits(s, e, size) <==> Fits(s, f, size)
  {
    forall k | 0 <= k <= |s| && Boundary(s, k)
      ensures MixedForm(s, k, e) == MixedForm(s, k, f) && Slack(s, k, e) == Slack(s, k, f)
    {
      LiveQsOfSuffix(s, k);
      NameIgnoresCounter(s[k..], e, f);
    }
  }

  lemma {:induction false} LiveQsOfSuffix(s: string, k: nat)
    requires k <= |s| && Boundary(s, k)
    ensures LiveQs(s[k..]) <= LiveQs(s)
    decreases |s|
  {
    if k == 0 {
      assert s[0..] == s;
    } else {
      var w := if s[0] != ESC || |s| == 1 then 1 else 2;
      assert w == 2 ==> Pending(s, 1);
      BoundaryShift(s, w, k);
      LiveQsOfSuffix(s[w..], k - w);
      assert s[w..][k - w..] == s[k..];
    }
  }

  /** The names of the counters below n. */
  function NamesBelow(c: Conf, n: nat): set<Name> {
    if n == 0 then {} else NamesBelow(c, n - 1) + {Components(c.PathOf(n - 1))}
  }

  lemma {:induction false} NamesBelowHas(c: Conf, n: nat, x: Name) returns (i: nat)
    requires x in NamesBelow(c, n)
    ensures i < n && x == Components(c.PathOf(i))
  {
    i := n - 1;
    if x in NamesBelow(c, n - 1) {
      i := NamesBelowHas(c, n - 1, x);
    }
  }

  lemma DistinctNames(c: Conf, a: nat, b: nat)
    requires LiveQs(c.pattern) > 0 && (c.limit > 0 ==> a < c.limit && b < c.limit)
    requires Components(c.PathOf(a)) == Components(c.PathOf(b))
    ensures a == b
  {
    FlattenComponents(c.PathOf(a));
    FlattenComponents(c.PathOf(b));
    NamesAreInjective(c.pattern, c.pid, c.exe, c.limit, a, b);
  }

  lemma {:induction false} CountNames(c: Conf, n: nat)
    requires LiveQs(c.pattern) > 0 && (c.limit > 0 ==> n <= c.limit)
    ensures |NamesBelow(c, n)| == n
  {
    if n > 0 {
      CountNames(c, n - 1);
      NextNameIsNew(c, n - 1);
      OneMore(NamesBelow(c, n - 1), Components(c.PathOf(n - 1)));
    }
  }

  lemma OneMore<T>(s: set<T>, x: T)
    requires x !in s
    ensures |s + {x}| == |s| + 1
  {
  }

  lemma NextNameIsNew(c: Conf, n: nat)
    requires LiveQs(c.pattern) > 0 && (c.limit > 0 ==> n < c.limit)
    ensures Components(c.PathOf(n)) !in NamesBelow(c, n)
  {
    if Components(c.PathOf(n)) in NamesBelow(c, n) {
      var i := NamesBelowHas(c, n, Components(c.PathOf(n)));
      DistinctNames(c, i, n);
      assert false;
    }
  }

  lemma {:induction false} SubsetSize<T>(a: set<T>, b: set<T>)
    requires a <= b
    ensures |a| <= |b|
  {
    if a != {} {
      var x :| x in a;
      SubsetSize(a - {x}, b - {x});
    }
  }

  /** Every counter below n is taken. */
  ghost predicate AllTaken(c: Conf, fs: Fs, n: nat) {
    forall i :: 0 <= i < n ==> Exists(fs, Components(c.PathOf(i)))
  }

  function Entries(fs: Fs): set<Name> {
    fs.files.Keys + fs.dirs
  }

  /** There are not more taken counters than entries in the tree. */
  lemma Pigeonhole(c: Conf, fs: Fs, n: nat)
    requires LiveQs(c.pattern) > 0 && (c.limit > 0 ==> n <= c.limit) && AllTaken(c, fs, n)
    ensures n <= |Entries(fs)|
  {
    CountNames(c, n);
    assert NamesBelow(c, n) <= Entries(fs) by {
      forall x | x in NamesBelow(c, n) ensures x in Entries(fs) {
        var i := NamesBelowHas(c, n, x);
      }
    }
    SubsetSize(NamesBelow(c, n), Entries(fs));
  }

  // ---------- the search ----------

  /** The machine comes to an end: only a search without limit whose name has no counter and
      exists goes on for ever. */
  ghost predicate Ends(c: Conf, fs: Fs) {
    c.policy != Sequence || c.limit > 0 || LiveQs(c.pattern) > 0 || !Blocked(c, fs, 0)
  }

  /** The largest counter that can be reached. */
  function Bound(c: Conf, fs: Fs): nat {
    if c.policy != Sequence then 0
    else if c.limit > 0 then c.limit - 1
    else |Entries(fs)|
  }

  /** The search has come to counter n. */
  ghost predicate Reached(c: Conf, fs: Fs, n: nat) {
    && c.WellFormed() && WellFormed(fs) && Ends(c, fs)
    && (forall i :: 0 <= i < n ==> Try(c, fs, i).Taken?)
    && (n > 0 && c.limit > 0 ==> n < c.limit)
  }

  lemma ReachedWithinBound(c: Conf, fs: Fs, n: nat)
    requires Reached(c, fs, n)
    ensures n <= Bound(c, fs)
  {
    if n > 0 {
      assert Try(c, fs, 0).Taken?;
      forall i | 0 <= i < n ensures Exists(fs, Components(c.PathOf(i))) {
        TakenIffExists(c, fs, i);
      }
      if c.limit <= 0 {
        Pigeonhole(c, fs, n);
      }
    }
  }

  lemma NextReached(c: Conf, fs: Fs, n: nat)
    requires Reached(c, fs, n) && Try(c, fs, n).Taken? && (n + 1 < c.limit || c.limit <= 0)
    ensures Try(c, fs, n).fs == fs && Reached(c, fs, n + 1) && n + 1 <= Bound(c, fs)
  {
    TakenIsSequence(c, fs, n);
    TakenIffExists(c, fs, n);
    ReachedWithinBound(c, fs, n + 1);
  }

  /** The "restart" loop from counter n on, in a tree that nobody else changes. */
  ghost function Search(c: Conf, fs: Fs, n: nat): (Result, Fs)
    requires Reached(c, fs, n)
    decreases Bound(c, fs) - n
  {
    match Try(c, fs, n)
    case Finished(r, fs') => (r, fs')
    case Taken(fs') =>
      if n + 1 < c.limit || c.limit <= 0 then
        NextReached(c, fs, n);
        Search(c, fs', n + 1)
      else (Failed, fs')
  }

  /** strftime() into the buffer. */
  method LoadPattern(path: array<char>, pattern: string)
    requires |pattern| < path.Length && NUL !in pattern
    modifies path
    ensures NUL in path[..] && CString(path[..]) == pattern
  {
    MemCpy(path, 0, pattern + [NUL]);
    assert path[..] == path[0..];
    CStringIs(path[..], pattern);
  }

  /** The "reopen" loop; every other result of open() is the caller's. */
  method OpenName(k: Kernel, path: array<char>, from: nat, p: Policy, mkdir: bool)
    returns (r: SysResult, made: bool, ghost calls: nat)
    requires from <= path.Length && NUL in path[from..]
    modifies k, path
    ensures path[..] == old(path[..])
    ensures k.Quiet() ==> (r, made, k.fs) == OpenOrMake(old(k.fs), CString(old(path[from..])), p, mkdir)
    ensures k.opens == old(k.opens) + (if made then 2 else 1)
    ensures calls == (if made then 1 else 0) || (calls == 1 && r == Error(ENOENT))
    ensures made || calls > 0 ==> mkdir
  {
    ghost var name, fs0 := CString(path[from..]), k.fs;
    var flag := mkdir;
    made, calls := false, 0;
    while true
      invariant path[..] == old(path[..]) && path[from..] == old(path[from..])
      invariant made ==> mkdir && !flag && calls == 1 && k.opens == old(k.opens) + 1
      invariant !made ==> flag == mkdir && calls == 0 && k.opens == old(k.opens)
      invariant k.Quiet() && !made ==> k.fs == fs0
      invariant k.Quiet() && made ==> Open(fs0, name, p) == Error(ENOENT) && MakeDirs(fs0, name, 0) == (true, k.fs)
      decreases flag
    {
      r := k.OpenCall(CString(path[from..]), p);
      if r != Error(ENOENT) || !flag {
        return;
      }
      calls := calls + 1;
      var ok := MakePath(k, path, from);
      assert path[from..] == path[..][from..];
      if !ok {
        return;
      }
      flag, made := false, true;
    }
  }

  /** The error handling after open(). */
  method Settle(k: Kernel, c: Conf, name: string, res: SysResult) returns (done: bool, r: Result)
    modifies k
    ensures !done ==> res == Error(EEXIST) && c.policy == Sequence
    ensures k.opens == old(k.opens)
    ensures k.Quiet() ==> k.fs == old(k.fs)
    ensures k.Quiet() ==> Conclude(c, name, res, k.fs) == if done then Finished(r, k.fs) else Taken(k.fs)
  {
    done, r := true, Failed;
    if res.Done? {
      r := Opened(name);
    } else if res.errno == EEXIST && c.policy == Keep {
      var usable := k.OpenNull();
      if usable {
        r := NullDevice(name);
      }
    } else if res.errno == EEXIST && c.policy == Sequence {
      done := false;
    }
  }

  /** strftime() and the expansion loop: the C string at path + j is the name. */
  method ExpandName(c: Conf, path: array<char>, counter: nat) returns (ok: bool, j: nat)
    requires c.WellFormed() && path.Length == c.size
    modifies path
    ensures ok <==> c.FitsAt(counter)
    ensures ok ==> j <= path.Length && NUL in path[j..] && CString(path[j..]) == c.PathOf(counter)
  {
    SeqLenPositive(c.limit, counter);
    LoadPattern(path, c.pattern);
    var at;
    ok, at := ExpandInPlace(path, c.EnvOf(counter));
    j := 0;
    if ok {
      j := at;
      PathOfIsString(c, counter);
      CStringIs(path[j..], c.PathOf(counter));
    }
  }

  /** One round of the "restart" loop. */
  method TryName(k: Kernel, c: Conf, path: array<char>, counter: nat, mkdir: bool)
    returns (done: bool, r: Result, made: bool, ghost calls: nat)
    requires c.WellFormed() && path.Length == c.size
    modifies k, path
    ensures !done ==> c.policy == Sequence && calls == (if made then 1 else 0)
    ensures calls <= (if mkdir then 1 else 0) && (made ==> mkdir && calls == 1)
    ensures k.opens <= old(k.opens) + 1 + (if made then 1 else 0)
    ensures k.Quiet() && mkdir == c.mkdir ==>
              Try(c, old(k.fs), counter) == if done then Finished(r, k.fs) else Taken(k.fs)
    ensures k.Quiet() && WellFormed(old(k.fs)) && !done ==> !made
  {
    var ok, j := ExpandName(c, path, counter);
    if !ok {
      return true, Failed, false, 0;
    }
    var name := CString(path[j..]);
    var res;
    ghost var fs := k.fs;
    res, made, calls := OpenName(k, path, j, c.policy, mkdir);
    done, r := Settle(k, c, name, res);
    if k.Quiet() && WellFormed(fs) && !done {
      PathOfIsString(c, counter);
      RefusedIffExists(fs, name, mkdir);
    }
  }

  lemma NextCounter(c: Conf, fs: Fs, n: nat)
    requires Reached(c, fs, n) && Try(c, fs, n).Taken?
    ensures c.policy == Sequence && Try(c, fs, n).fs == fs && n <= Bound(c, fs)
    ensures n + 1 < c.limit || c.limit <= 0 ==> Reached(c, fs, n + 1) && n + 1 <= Bound(c, fs)
    ensures n + 1 < c.limit || c.limit <= 0 ==> Search(c, fs, n) == Search(c, fs, n + 1)
    ensures !(n + 1 < c.limit || c.limit <= 0) ==> Search(c, fs, n) == (Failed, fs)
  {
    TakenIsSequence(c, fs, n);
    TakenIffExists(c, fs, n);
    ReachedWithinBound(c, fs, n);
    if n + 1 < c.limit || c.limit <= 0 {
      NextReached(c, fs, n);
    }
  }

  lemma TakenIsSequence(c: Conf, fs: Fs, n: nat)
    requires Try(c, fs, n).Taken?
    ensures c.policy == Sequence
  {
  }

  /** The search that started in fs0 has come to `counter`; if it ends at all, it will end as
      expected. */
  ghost predicate OnCourse(c: Conf, fs0: Fs, fs: Fs, counter: nat, expected: (Result, Fs)) {
    && fs == fs0 && c.WellFormed() && WellFormed(fs0)
    && (Ends(c, fs0) ==>
          Reached(c, fs0, counter) && counter <= Bound(c, fs0) && expected == Search(c, fs0, counter))
  }

  lemma StaysOnCourse(c: Conf, fs0: Fs, fs: Fs, counter: nat, expected: (Result, Fs))
    requires OnCourse(c, fs0, fs, counter, expected)
    ensures Try(c, fs0, counter).Finished? ==>
              Ends(c, fs0) && expected == (Try(c, fs0, counter).result, Try(c, fs0, counter).fs)
    ensures Try(c, fs0, counter).Taken? ==>
              if counter + 1 < c.limit || c.limit <= 0
              then OnCourse(c, fs0, Try(c, fs0, counter).fs, counter + 1, expected)
              else Ends(c, fs0) && expected == (Failed, Try(c, fs0, counter).fs)
  {
    if !Ends(c, fs0) {
      TakenIffExists(c, fs0, 0);
      SequenceNameIsConstant(c, fs0, counter);
    } else if Try(c, fs0, counter).Taken? {
      NextCounter(c, fs0, counter);
    }
  }

  /** One round of the "restart" loop, with what is left of the right to make directories. */
  method SearchRound(k: Kernel, c: Conf, path: array<char>, counter: nat, mkdir0: bool, ghost quiet: bool,
                     ghost fs0: Fs, ghost expected: (Result, Fs), ghost before: bool)
    returns (done: bool, r: Result, mkdir: bool, ghost makes: nat, ghost after: bool)
    requires c.WellFormed() && path.Length == c.size && (mkdir0 ==> c.mkdir)
    requires before == OnCourse(c, fs0, k.fs, counter, expected)
    requires quiet ==> k.Quiet() && mkdir0 == c.mkdir && before
    modifies k, path
    ensures !done ==> c.policy == Sequence && makes == (if mkdir0 && !mkdir then 1 else 0)
    ensures !done ==> counter + 1 < c.limit || c.limit <= 0
    ensures (mkdir ==> mkdir0) && makes <= (if mkdir0 then 1 else 0) && k.opens <= old(k.opens) + 1 + makes
    ensures quiet && done ==> Ends(c, fs0) && (r, k.fs) == expected
    ensures after == OnCourse(c, fs0, k.fs, counter + 1, expected)
    ensures quiet && !done ==> mkdir == c.mkdir && after
    ensures quiet && Ends(c, fs0) ==> counter <= Bound(c, fs0)
  {
    var made;
    if quiet {
      StaysOnCourse(c, fs0, k.fs, counter, expected);
    }
    done, r, made, makes := TryName(k, c, path, counter, mkdir0);
    mkdir := mkdir0 && !made;
    if !done && !(counter + 1 < c.limit || c.limit <= 0) {
      done, r := true, Failed;
    }
    after := OnCourse(c, fs0, k.fs, counter + 1, expected);
  }

  /** At most this many rounds of the "restart" loop. If `quiet`, nobody else changes the tree and
      the outcome is known. */
  method RunSearch(k: Kernel, c: Conf, path: array<char>, rounds: nat, ghost quiet: bool, ghost fs0: Fs,
                   ghost expected: (Result, Fs))
    returns (done: bool, r: Result, ghost makes: nat)
    requires c.WellFormed() && path.Length == c.size
    requires quiet ==> k.Quiet() && OnCourse(c, fs0, k.fs, 0, expected)
    modifies k, path
    ensures makes <= 1 && k.opens <= old(k.opens) + rounds + makes
    ensures c.policy != Sequence ==> k.opens <= old(k.opens) + 1 + makes
    ensures c.limit > 0 ==> k.opens <= old(k.opens) + c.limit + makes
    ensures !done && rounds > 0 ==> c.policy == Sequence && (c.limit > 0 ==> rounds < c.limit)
    ensures quiet && done ==> Ends(c, fs0) && (r, k.fs) == expected
    ensures quiet && !done && Ends(c, fs0) ==> rounds <= Bound(c, fs0)
    ensures quiet && Ends(c, fs0) ==> k.opens <= old(k.opens) + Bound(c, fs0) + 1 + makes
  {
    var counter, mkdir := 0, c.mkdir;
    ghost var course := OnCourse(c, fs0, k.fs, 0, expected);
    done, r, makes := false, Failed, 0;
    while counter < rounds
      invariant counter <= rounds && (counter > 0 ==> c.policy == Sequence && (c.limit > 0 ==> counter < c.limit))
      invariant makes == (if c.mkdir && !mkdir then 1 else 0) && (mkdir ==> c.mkdir) && !done
      invariant k.opens <= old(k.opens) + counter + makes
      invariant course == OnCourse(c, fs0, k.fs, counter, expected)
      invariant quiet ==> mkdir == c.mkdir && course
    {
      ghost var more;
      done, r, mkdir, more, course := SearchRound(k, c, path, counter, mkdir, quiet, fs0, expected, course);
      makes := makes + more;
      if done {
        return;
      }
      counter := counter + 1;
    }
  }

  /** open_output() up to the open file; only the "restart" loop is watched for no more than
      `rounds` rounds, since against an environment that takes every name it need not end. In a
      quiet tree it is done in time whenever it ends at all. */
  method OpenOutput(k: Kernel, output: Option<Conf>, path: array<char>, rounds: nat)
    returns (done: bool, r: Result, ghost makes: nat)
    requires output.Some? ==> output.value.Storable() && path.Length == output.value.size
    modifies k, path
    ensures makes <= 1 && k.opens <= old(k.opens) + rounds + makes
    ensures output.None? ==>
              && done && k.opens == old(k.opens) && makes == 0
              && (k.Quiet() ==> k.fs == old(k.fs) && r == if k.fs.nullDevice then Discarded else Failed)
    ensures output.Some? && !output.value.WellFormed() ==>
              done && r == Failed && k.opens == old(k.opens) && k.fs == old(k.fs)
    ensures output.Some? && output.value.policy != Sequence ==>
              (rounds > 0 ==> done) && k.opens <= old(k.opens) + 1 + makes
    ensures output.Some? && output.value.limit > 0 ==>
              (rounds >= output.value.limit ==> done) && k.opens <= old(k.opens) + output.value.limit + makes
    ensures output.Some? && output.value.WellFormed() && k.Quiet() && WellFormed(old(k.fs)) ==>
              var c := output.value;
              if Ends(c, old(k.fs)) then
                && (rounds > Bound(c, old(k.fs)) ==> done)
                && (done ==> (r, k.fs) == Search(c, old(k.fs), 0))
                && k.opens <= old(k.opens) + Bound(c, old(k.fs)) + 1 + makes
              else !done
  {
    if output == None {
      var ok := k.OpenNull();
      return true, if ok then Discarded else Failed, 0;
    }
    var c := output.value;
    if c.pattern == [] || c.pattern[0] != '/' {
      return true, Failed, 0;
    }
    ghost var quiet := k.Quiet() && WellFormed(k.fs);
    ghost var expected := if quiet && Ends(c, k.fs) then Search(c, k.fs, 0) else (Failed, k.fs);
    done, r, makes := RunSearch(k, c, path, rounds, quiet, k.fs, expected);
  }
}
