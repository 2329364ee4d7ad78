/** The counter of the sequence mode: the width it is printed in, and why it makes names unique. */
module SequenceNames {
  import opened Text
  import opened Expansion

  /** seq_len of open_output(). */
  function SeqLen(limit: int, counter: nat): (n: nat) {
    if limit > 0 then IntLen(limit - 1) else IntLen(counter)
  }

  /** The bytes that "@Q" copies: the first seq_len characters of "%0*d". */
  function SequenceText(limit: int, counter: nat): (s: string)
    ensures |s| == SeqLen(limit, counter)
  {
    ZeroPadded(SeqLen(limit, counter), counter)[..SeqLen(limit, counter)]
  }

  /** The environment of the expansion for one value of the counter. */
  function EnvAt(pid: int, exe: string, limit: int, counter: nat): Env {
    Env(Decimal(pid), exe, SequenceText(limit, counter))
  }

  lemma SeqLenPositive(limit: int, counter: nat)
    ensures SeqLen(limit, counter) >= 1
  {
    IntLenMonotone(0, if limit > 0 then limit - 1 else counter);
  }

  /** Every counter that is reached is printed whole, in exactly seq_len digits. */
  lemma SequenceTextIsCounter(limit: int, counter: nat)
    requires limit > 0 ==> counter < limit
    ensures SequenceText(limit, counter) == ZeroPadded(SeqLen(limit, counter), counter)
    ensures AllDigits(SequenceText(limit, counter), 10) && Value(SequenceText(limit, counter), 10) == counter
  {
    IntLenMonotone(counter, if limit > 0 then limit - 1 else counter);
    IntLenIsDigitCount(counter);
    ValueOfZeroPadded(SeqLen(limit, counter), counter);
    var z := ZeroPadded(SeqLen(limit, counter), counter);
    assert |z| == SeqLen(limit, counter) && z[..|z|] == z;
  }

  /** The number of live "@Q" in a pattern. */
  function LiveQs(s: string): nat {
    if s == [] then 0
    else if s[0] != ESC || |s| == 1 then LiveQs(s[1..])
    else (if s[1] == 'Q' then 1 else 0) + LiveQs(s[2..])
  }

  /** A path name without its slashes. */
  function NoSlash(s: string): string {
    if s == [] then [] else (if s[0] == '/' then [] else [s[0]]) + NoSlash(s[1..])
  }

  lemma {:induction false} NoSlashConcat(a: string, b: string)
    ensures NoSlash(a + b) == NoSlash(a) + NoSlash(b)
  {
    if a == [] {
      assert a + b == b;
    } else {
      assert (a + b)[1..] == a[1..] + b;
      NoSlashConcat(a[1..], b);
    }
  }

  lemma {:induction false} NoSlashOfDigits(s: string)
    requires AllDigits(s, 10)
    ensures NoSlash(s) == s
  {
    if s != [] {
      assert AllDigits(s[1..], 10);
      NoSlashOfDigits(s[1..]);
    }
  }

  /** What the pattern contributes to the length of a name besides its counters. */
  function FixedLength(s: string, e: Env): nat {
    if s == [] then 0
    else if s[0] != ESC || |s| == 1 then |NoSlash([s[0]])| + FixedLength(s[1..], e)
    else (if s[1] == 'Q' then 0 else |NoSlash(WildCard(s[1], e))|) + FixedLength(s[2..], e)
  }

  predicate SameButCounter(e: Env, f: Env) {
    e.pid == f.pid && e.exe == f.exe
  }

  lemma {:induction false} FixedLengthIgnoresCounter(s: string, e: Env, f: Env)
    requires SameButCounter(e, f)
    ensures FixedLength(s, e) == FixedLength(s, f)
    decreases |s|
  {
    if s == [] {
    } else if s[0] != ESC || |s| == 1 {
      FixedLengthIgnoresCounter(s[1..], e, f);
    } else {
      FixedLengthIgnoresCounter(s[2..], e, f);
      assert s[1] != 'Q' ==> WildCard(s[1], e) == WildCard(s[1], f);
    }
  }

  predicate WholeCounter(e: Env) {
    AllDigits(e.sequence, 10)
  }

  lemma {:induction false} NameLength(s: string, e: Env)
    requires WholeCounter(e)
    ensures |NoSlash(Expand(s, e))| == FixedLength(s, e) + LiveQs(s) * |e.sequence|
    decreases |s|
  {
    if s == [] {
    } else if s[0] != ESC || |s| == 1 {
      NameLength(s[1..], e);
      NoSlashConcat([s[0]], Expand(s[1..], e));
      assert LiveQs(s) == LiveQs(s[1..]);
    } else {
      NameLength(s[2..], e);
      NoSlashConcat(WildCard(s[1], e), Expand(s[2..], e));
      if s[1] == 'Q' {
        NoSlashOfDigits(e.sequence);
        assert LiveQs(s) == 1 + LiveQs(s[2..]);
        Distribute(LiveQs(s[2..]), |e.sequence|);
      } else {
        assert LiveQs(s) == LiveQs(s[2..]);
      }
    }
  }

  lemma Distribute(a: nat, b: nat)
    ensures (1 + a) * b == b + a * b
  {
  }

  /** With counters of one width, equal names have equal counters. */
  lemma {:induction false} EqualWidthInjective(s: string, e: Env, f: Env)
    requires SameButCounter(e, f) && |e.sequence| == |f.sequence| && WholeCounter(e) && WholeCounter(f)
    requires LiveQs(s) > 0
    requires NoSlash(Expand(s, e)) == NoSlash(Expand(s, f))
    ensures e.sequence == f.sequence
    decreases |s|
  {
    if s[0] != ESC || |s| == 1 {
      NoSlashConcat([s[0]], Expand(s[1..], e));
      NoSlashConcat([s[0]], Expand(s[1..], f));
      CancelFront(NoSlash([s[0]]), NoSlash([s[0]]), NoSlash(Expand(s[1..], e)), NoSlash(Expand(s[1..], f)));
      EqualWidthInjective(s[1..], e, f);
    } else {
      var w, v := WildCard(s[1], e), WildCard(s[1], f);
      NoSlashConcat(w, Expand(s[2..], e));
      NoSlashConcat(v, Expand(s[2..], f));
      if s[1] == 'Q' {
        NoSlashOfDigits(w);
        NoSlashOfDigits(v);
        CancelFront(w, v, NoSlash(Expand(s[2..], e)), NoSlash(Expand(s[2..], f)));
      } else {
        assert w == v;
        CancelFront(NoSlash(w), NoSlash(v), NoSlash(Expand(s[2..], e)), NoSlash(Expand(s[2..], f)));
        EqualWidthInjective(s[2..], e, f);
      }
    }
  }

  lemma CancelFront(a: string, b: string, x: string, y: string)
    requires |a| == |b| && a + x == b + y
    ensures a == b && x == y
  {
    assert a == (a + x)[..|a|] == (b + y)[..|b|] == b;
    assert x == (a + x)[|a|..] == (b + y)[|b|..] == y;
  }

  /** Two counters give names with the same text between the slashes only if they are equal:
      for fixed and variable width, and any number of counters in the pattern. */
  lemma NamesAreInjective(s: string, pid: int, exe: string, limit: int, a: nat, b: nat)
    requires LiveQs(s) > 0
    requires limit > 0 ==> a < limit && b < limit
    requires NoSlash(Expand(s, EnvAt(pid, exe, limit, a))) == NoSlash(Expand(s, EnvAt(pid, exe, limit, b)))
    ensures a == b
  {
    var e, f := EnvAt(pid, exe, limit, a), EnvAt(pid, exe, limit, b);
    SequenceTextIsCounter(limit, a);
    SequenceTextIsCounter(limit, b);
    NameLength(s, e);
    NameLength(s, f);
    FixedLengthIgnoresCounter(s, e, f);
    SameProduct(LiveQs(s), |e.sequence|, |f.sequence|);
    EqualWidthInjective(s, e, f);
  }

  lemma SameProduct(q: nat, a: nat, b: nat)
    requires q > 0 && q * a == q * b
    ensures a == b
  {
    assert q * (a - b) == q * a - q * b;
  }

  /** Without a live "@Q" the name does not depend on the counter at all. */
  lemma {:induction false} NameIgnoresCounter(s: string, e: Env, f: Env)
    requires SameButCounter(e, f) && LiveQs(s) == 0
    ensures Expand(s, e) == Expand(s, f)
    decreases |s|
  {
    if s == [] {
    } else if s[0] != ESC || |s| == 1 {
      NameIgnoresCounter(s[1..], e, f);
    } else {
      NameIgnoresCounter(s[2..], e, f);
      assert s[1] != 'Q' && WildCard(s[1], e) == WildCard(s[1], f);
    }
  }
}
