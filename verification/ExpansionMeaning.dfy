/** What each token of a pattern stands for, wherever it is in the pattern. */
module ExpansionMeaning {
  import opened Text
  import opened Expansion
  import opened SequenceNames
  import opened OpenRetry

  /** The token of `width` characters at boundary k of s is replaced by the text w, and the rest of
      the pattern is expanded around it. */
  predicate StandsFor(s: string, k: nat, width: nat, e: Env, w: string) {
    k + width <= |s| && Expand(s, e) == Expand(s[..k], e) + w + Expand(s[k + width..], e)
  }

  lemma TokenAt(s: string, k: nat, e: Env)
    requires k + 1 < |s| && Boundary(s, k) && s[k] == ESC
    ensures StandsFor(s, k, 2, e, WildCard(s[k + 1], e))
  {
    ExpandSplits(s, k, e);
    var t := s[k..];
    assert t[1] == s[k + 1] && t[2..] == s[k + 2..];
    Associative(Expand(s[..k], e), WildCard(s[k + 1], e), Expand(s[k + 2..], e));
  }

  /** An ordinary character, and a lone "@" at the end, stand for themselves. */
  lemma OrdinaryMeans(s: string, k: nat, e: Env)
    requires k < |s| && Boundary(s, k) && (s[k] != ESC || k + 1 == |s|)
    ensures StandsFor(s, k, 1, e, [s[k]])
  {
    ExpandSplits(s, k, e);
    assert s[k..][1..] == s[k + 1..];
    Associative(Expand(s[..k], e), [s[k]], Expand(s[k + 1..], e));
  }

  /** "@p" is the process id, "@Q" the sequence number, "@@" the escape character, and what is no
      wild card is kept with its escape character. */
  lemma TextMeans(s: string, k: nat, e: Env)
    requires k + 1 < |s| && Boundary(s, k) && s[k] == ESC
    ensures s[k + 1] == 'p' ==> StandsFor(s, k, 2, e, e.pid)
    ensures s[k + 1] == 'Q' ==> StandsFor(s, k, 2, e, e.sequence)
    ensures s[k + 1] == '@' ==> StandsFor(s, k, 2, e, "@")
    ensures s[k + 1] !in "@pQeE" ==> StandsFor(s, k, 2, e, ['@', s[k + 1]])
  {
    TokenAt(s, k, e);
    var known := "@pQeE";
    assert known[0] == '@' && known[1] == 'p' && known[2] == 'Q' && known[3] == 'e' && known[4] == 'E';
  }

  /** "@e" is what follows the last slash of the executable's path name. */
  lemma NameMeans(s: string, k: nat, e: Env) returns (b: string)
    requires k + 1 < |s| && Boundary(s, k) && s[k] == ESC && s[k + 1] == 'e'
    ensures StandsFor(s, k, 2, e, b)
    ensures '/' !in b && |b| <= |e.exe| && e.exe[|e.exe| - |b|..] == b
    ensures |b| < |e.exe| ==> e.exe[|e.exe| - |b| - 1] == '/'
  {
    TokenAt(s, k, e);
    BaseNameIsLastPart(e.exe);
    b := BaseName(e.exe);
  }

  /** "@E" is the executable's path name, character by character, with "!" for "/". */
  lemma PathMeans(s: string, k: nat, e: Env) returns (b: string)
    requires k + 1 < |s| && Boundary(s, k) && s[k] == ESC && s[k + 1] == 'E'
    ensures StandsFor(s, k, 2, e, b) && |b| == |e.exe|
    ensures forall i :: 0 <= i < |b| ==> b[i] == if e.exe[i] == '/' then '!' else e.exe[i]
  {
    TokenAt(s, k, e);
    b := BangName(e.exe);
    forall i | 0 <= i < |b| ensures b[i] == if e.exe[i] == '/' then '!' else e.exe[i] {
      BangNameAt(e.exe, i);
    }
  }

  /** The width of the counter: the digits of the greatest one under a limit, and as many as it
      takes without. */
  lemma CounterWidth(limit: int, counter: nat)
    ensures limit > 0 ==> |SequenceText(limit, counter)| == |Digits(limit - 1, 10)|
    ensures limit <= 0 ==> SequenceText(limit, counter) == Digits(counter, 10)
  {
    if limit > 0 {
      IntLenIsDigitCount(limit - 1);
    } else {
      IntLenIsDigitCount(counter);
      assert Digits(counter, 10)[..|Digits(counter, 10)|] == Digits(counter, 10);
    }
  }

  /** In the name of an output, "@p" is the process id in decimal, and "@Q" the counter: digits
      only, with its value, and of the same width for all counters under a limit. */
  lemma OutputNameMeans(c: Conf, counter: nat, k: nat)
    requires k + 1 < |c.pattern| && Boundary(c.pattern, k) && c.pattern[k] == ESC
    requires c.limit > 0 ==> counter < c.limit
    ensures var s, name := c.pattern, c.PathOf(counter);
            c.pattern[k + 1] == 'p' ==>
              name == Expand(s[..k], c.EnvOf(counter)) + Decimal(c.pid) + Expand(s[k + 2..], c.EnvOf(counter))
    ensures var s, name := c.pattern, c.PathOf(counter);
            c.pattern[k + 1] == 'Q' ==>
              exists q: string ::
                && name == Expand(s[..k], c.EnvOf(counter)) + q + Expand(s[k + 2..], c.EnvOf(counter))
                && AllDigits(q, 10) && Value(q, 10) == counter
                && (if c.limit > 0 then |q| == |Digits(c.limit - 1, 10)| else q == Digits(counter, 10))
  {
    TextMeans(c.pattern, k, c.EnvOf(counter));
    SequenceTextIsCounter(c.limit, counter);
    CounterWidth(c.limit, counter);
    if c.pattern[k + 1] == 'Q' {
      var q := SequenceText(c.limit, counter);
      var s := c.pattern;
      assert c.PathOf(counter) == Expand(s[..k], c.EnvOf(counter)) + q + Expand(s[k + 2..], c.EnvOf(counter));
    }
  }

  /** The widths of t/stream_seq.t. */
  lemma WidthExamples()
    ensures |SequenceText(9, 0)| == 1 && |SequenceText(10, 0)| == 1 && |SequenceText(11, 0)| == 2
    ensures |SequenceText(99, 0)| == 2 && |SequenceText(100, 0)| == 2 && |SequenceText(101, 0)| == 3
  {
    assert IntLen(8) == 1 && IntLen(9) == 1 && IntLen(10) == 2;
    assert IntLen(98) == 2 && IntLen(99) == 2 && IntLen(100) == 3;
  }
}
