/** The names of a sequence have equally many components, so none lies in the directory of
    another. */
module NameDepth {
  import opened Text
  import opened Expansion
  import opened SequenceNames
  import opened FileSystem

  /** The number of components of s, of which the first counts only at the start of one. */
  function Parts(s: string, start: bool): nat {
    if s == [] then 0
    else if s[0] == '/' then Parts(s[1..], true)
    else (if start then 1 else 0) + Parts(s[1..], false)
  }

  /** Whether a component starts behind s. */
  function StartsBehind(s: string, start: bool): bool {
    if s == [] then start else StartsBehind(s[1..], s[0] == '/')
  }

  lemma {:induction false} PartsConcat(a: string, b: string, start: bool)
    ensures Parts(a + b, start) == Parts(a, start) + Parts(b, StartsBehind(a, start))
    ensures StartsBehind(a + b, start) == StartsBehind(b, StartsBehind(a, start))
  {
    if a == [] {
      assert a + b == b;
    } else {
      assert (a + b)[1..] == a[1..] + b;
      PartsConcat(a[1..], b, a[0] == '/');
    }
  }

  lemma {:induction false} PartsOfPlain(s: string, start: bool)
    requires '/' !in s
    ensures Parts(s, start) == (if s != [] && start then 1 else 0) && StartsBehind(s, start) == (s == [] && start)
  {
    if s != [] {
      assert s[0] in s && forall x :: x in s[1..] ==> x in s;
      PartsOfPlain(s[1..], false);
    }
  }

  lemma {:induction false} PartsAreComponents(p: string)
    ensures |Components(p)| == Parts(p, true)
    decreases |p|
  {
    if p == [] {
    } else if p[0] == '/' {
      PartsAreComponents(p[1..]);
    } else {
      var k := SlashAt(p);
      assert p == p[..k] + p[k..];
      PartsAreComponents(p[k..]);
      PartsOfPlain(p[..k], true);
      PartsConcat(p[..k], p[k..], true);
    }
  }

  lemma NoSlashInDigits(s: string)
    requires AllDigits(s, 10)
    ensures '/' !in s
  {
    forall k | 0 <= k < |s| ensures s[k] != '/' {
      assert IsDigit(s[k], 10);
    }
  }

  lemma {:induction false} SameParts(s: string, e: Env, f: Env, start: bool)
    requires SameButCounter(e, f) && WholeCounter(e) && WholeCounter(f) && e.sequence != [] && f.sequence != []
    ensures Parts(Expand(s, e), start) == Parts(Expand(s, f), start)
    decreases |s|
  {
    if s == [] {
    } else if s[0] != ESC || |s| == 1 {
      PartsConcat([s[0]], Expand(s[1..], e), start);
      PartsConcat([s[0]], Expand(s[1..], f), start);
      SameParts(s[1..], e, f, StartsBehind([s[0]], start));
    } else {
      var w, v := WildCard(s[1], e), WildCard(s[1], f);
      SamePartsOfToken(s[1], e, f, start);
      PartsConcat(w, Expand(s[2..], e), start);
      PartsConcat(v, Expand(s[2..], f), start);
      SameParts(s[2..], e, f, StartsBehind(w, start));
    }
  }

  lemma SamePartsOfToken(x: char, e: Env, f: Env, start: bool)
    requires SameButCounter(e, f) && WholeCounter(e) && WholeCounter(f) && e.sequence != [] && f.sequence != []
    ensures Parts(WildCard(x, e), start) == Parts(WildCard(x, f), start)
    ensures StartsBehind(WildCard(x, e), start) == StartsBehind(WildCard(x, f), start)
  {
    if x == 'Q' {
      NoSlashInDigits(e.sequence);
      NoSlashInDigits(f.sequence);
      PartsOfPlain(e.sequence, start);
      PartsOfPlain(f.sequence, start);
    } else {
      assert WildCard(x, e) == WildCard(x, f);
    }
  }

  /** All names of a sequence have equally many components. */
  lemma EquallyDeep(s: string, pid: int, exe: string, limit: int, a: nat, b: nat)
    requires limit > 0 ==> a < limit && b < limit
    ensures |Components(Expand(s, EnvAt(pid, exe, limit, a)))| == |Components(Expand(s, EnvAt(pid, exe, limit, b)))|
  {
    var e, f := EnvAt(pid, exe, limit, a), EnvAt(pid, exe, limit, b);
    SequenceTextIsCounter(limit, a);
    SequenceTextIsCounter(limit, b);
    SeqLenPositive(limit, a);
    SeqLenPositive(limit, b);
    SameParts(s, e, f, true);
    PartsAreComponents(Expand(s, e));
    PartsAreComponents(Expand(s, f));
  }
}
