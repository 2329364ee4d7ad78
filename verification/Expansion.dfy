/**
 The language of output-name patterns, read from left to right: an escape character takes
 the character after it as a wild card, everything else stands for itself.
 */
module Expansion {
  import opened Text

  const ESC: char := '@'

  /** What the wild cards stand for: the texts of the process id and of the sequence number,
      and the path name of the executable. */
  datatype Env = Env(pid: string, exe: string, sequence: string)

  /** The part of a path name after its last slash. */
  function BaseName(exe: string): (b: string)
    ensures |b| <= |exe|
  {
    if exe == [] || exe[|exe| - 1] == '/' then [] else BaseName(exe[..|exe| - 1]) + [exe[|exe| - 1]]
  }

  lemma SuffixAndLast(s: string, n: nat)
    requires n < |s|
    ensures s[n..] == s[..|s| - 1][n..] + [s[|s| - 1]]
  {
  }

  lemma {:induction false} BaseNameIsLastPart(exe: string)
    ensures var b := BaseName(exe);
            && exe[|exe| - |b|..] == b && '/' !in b
            && (|b| < |exe| ==> exe[|exe| - |b| - 1] == '/')
  {
    if exe != [] && exe[|exe| - 1] != '/' {
      var init := exe[..|exe| - 1];
      BaseNameIsLastPart(init);
      SuffixAndLast(exe, |init| - |BaseName(init)|);
    }
  }

  /** The base name, found by looking at the characters from the right. */
  lemma {:induction false} BaseNameFrom(exe: string, p: nat)
    requires p <= |exe| && '/' !in exe[p..]
    ensures p == 0 || exe[p - 1] == '/' ==> BaseName(exe) == exe[p..]
    ensures p > 0 && exe[p - 1] != '/' ==> |BaseName(exe)| > |exe| - p
  {
    if p < |exe| {
      var init := exe[..|exe| - 1];
      assert exe[p..] == init[p..] + [exe[|exe| - 1]];
      BaseNameFrom(init, p);
    }
  }

  function Bang(c: char): char {
    if c == '/' then '!' else c
  }

  /** A path name with every slash replaced by an exclamation mark. */
  function BangName(exe: string): (b: string)
    ensures |b| == |exe|
  {
    if exe == [] then [] else [Bang(exe[0])] + BangName(exe[1..])
  }

  lemma {:induction false} BangNameAt(exe: string, k: nat)
    requires k < |exe|
    ensures BangName(exe)[k] == (if exe[k] == '/' then '!' else exe[k]) && BangName(exe)[k] != '/'
  {
    if k > 0 {
      BangNameAt(exe[1..], k - 1);
    }
  }

  function WildCard(x: char, e: Env): string {
    match x
    case '@' => "@"
    case 'p' => e.pid
    case 'Q' => e.sequence
    case 'e' => BaseName(e.exe)
    case 'E' => BangName(e.exe)
    case _ => [ESC, x]
  }

  /** The expansion; a lone trailing escape character stands for itself. */
  function Expand(s: string, e: Env): string {
    if s == [] then []
    else if s[0] != ESC || |s| == 1 then [s[0]] + Expand(s[1..], e)
    else WildCard(s[1], e) + Expand(s[2..], e)
  }

  /** Reading s from the left, the first k characters end inside an unfinished escape. */
  predicate Pending(s: string, k: nat)
    requires k <= |s|
  {
    k > 0 && s[k - 1] == ESC && !Pending(s, k - 1)
  }

  predicate Boundary(s: string, k: nat)
    requires k <= |s|
  {
    !Pending(s, k)
  }

  /** Length of the mixed form at a token boundary: the raw text before it, the expansion
      of the text after it, and the terminating NUL. */
  function MixedForm(s: string, k: nat, e: Env): nat
    requires k <= |s|
  {
    k + |Expand(s[k..], e)| + 1
  }

  /** Room that the copy loop for the executable name wants beyond the mixed form. */
  function Slack(s: string, k: nat, e: Env): nat
    requires k <= |s|
  {
    if |s| < k + 2 || s[k] != ESC || e.exe == [] then 0
    else if s[k + 1] == 'E' then 2
    else if s[k + 1] == 'e' then (if '/' in e.exe then 3 else 2)
    else 0
  }

  /** The condition under which a pattern expands within a buffer of n characters. */
  ghost predicate Fits(s: string, e: Env, n: nat) {
    forall k :: 0 <= k <= |s| && Boundary(s, k) ==> MixedForm(s, k, e) + Slack(s, k, e) <= n
  }

  /** Boundaries after a boundary do not depend on the text before it. */
  lemma {:induction false} BoundaryShift(s: string, w: nat, k: nat)
    requires w <= k <= |s| && Boundary(s, w)
    ensures Pending(s[w..], k - w) == Pending(s, k)
  {
    if w < k {
      BoundaryShift(s, w, k - 1);
      assert s[w..][k - w - 1] == s[k - 1];
    }
  }

  /** Expanding can be cut at any token boundary. */
  lemma {:induction false} ExpandSplits(s: string, k: nat, e: Env)
    requires k <= |s| && Boundary(s, k)
    ensures Expand(s, e) == Expand(s[..k], e) + Expand(s[k..], e)
    decreases |s|
  {
    if k == 0 {
      assert s[..k] == [] && s[k..] == s;
    } else {
      var w := if s[0] != ESC || |s| == 1 then 1 else 2;
      assert w == 2 ==> Pending(s, 1);
      BoundaryShift(s, w, k);
      ExpandSplits(s[w..], k - w, e);
      ExpandRest(s, w, k, e);
    }
  }

  lemma ExpandRest(s: string, w: nat, k: nat, e: Env)
    requires s != [] && w == (if s[0] != ESC || |s| == 1 then 1 else 2) && w <= k <= |s|
    requires Expand(s[w..], e) == Expand(s[w..][..k - w], e) + Expand(s[w..][k - w..], e)
    ensures Expand(s, e) == Expand(s[..k], e) + Expand(s[k..], e)
  {
    ExpandFirstToken(s, e, w);
    assert s[..k][w..] == s[w..][..k - w] && s[w..][k - w..] == s[k..] && s[..k][..w] == s[..w];
    assert Expand(s[..k], e) == Expand(s[..w], e) + Expand(s[w..][..k - w], e) by {
      ExpandFirstToken(s[..k], e, w);
    }
    Associative(Expand(s[..w], e), Expand(s[w..][..k - w], e), Expand(s[k..], e));
  }

  lemma ExpandFirstToken(s: string, e: Env, w: nat)
    requires s != [] && w == (if s[0] != ESC || |s| == 1 then 1 else 2)
    ensures Expand(s, e) == Expand(s[..w], e) + Expand(s[w..], e)
  {
    assert s[..w][w..] == [];
  }

  /** Successful expansions never outgrow the buffer, at any token boundary. */
  lemma FitsBoundsMixedForms(s: string, e: Env, n: nat, k: nat)
    requires Fits(s, e, n) && k <= |s| && Boundary(s, k)
    ensures MixedForm(s, k, e) <= n
    ensures |Expand(s[..k], e)| + |Expand(s[k..], e)| + 1 <= n
  {
    ExpandSplits(s, k, e);
    assert Boundary(s, 0) && s[0..] == s;
    assert MixedForm(s, 0, e) + Slack(s, 0, e) <= n;
  }

  /** Rejections are spurious by at most two characters of a wild card for the executable. */
  lemma RejectionIsTight(s: string, e: Env, n: nat)
    requires !Fits(s, e, n)
    ensures exists k ::
              0 <= k <= |s| && Boundary(s, k) &&
              (MixedForm(s, k, e) > n ||
               (MixedForm(s, k, e) >= n - 2 && k + 1 < |s| && s[k] == ESC && s[k + 1] in "eE"))
  {
    var k :| 0 <= k <= |s| && Boundary(s, k) && MixedForm(s, k, e) + Slack(s, k, e) > n;
    if Slack(s, k, e) > 0 {
      assert s[k + 1] == "eE"[0] || s[k + 1] == "eE"[1];
    }
  }

  /** A name that would fit, and is rejected: "/b" and its NUL take three characters, but the
      copy loop wants six for "/@e". */
  lemma SpuriousRejection()
    ensures var s, e := "/@e", Env("1", "/b", "0");
            && Expand(s, e) == "/b" && !Fits(s, e, 5)
            && Boundary(s, 1) && MixedForm(s, 1, e) == 3 && Slack(s, 1, e) == 3
  {
    var s, e := "/@e", Env("1", "/b", "0");
    var w := s[1..];
    assert w == "@e" && s[0] == '/';
    LastWildCard(w, e);
    assert "/b"[1..] == "b";
    BaseNameFrom("/b", 1);
    assert e.exe[0] == '/' && !Pending(s, 1);
    assert MixedForm(s, 1, e) + Slack(s, 1, e) == 6;
  }

  lemma LastWildCard(w: string, e: Env)
    requires w == "@e"
    ensures Expand(w, e) == BaseName(e.exe)
  {
    assert w[2..] == [];
  }

  /** An even run of escape characters halves. */
  lemma {:induction false} RunOfEscapes(k: nat, s: string, e: Env)
    ensures Expand(Repeat(ESC, 2 * k) + s, e) == Repeat(ESC, k) + Expand(s, e)
  {
    var run := Repeat(ESC, 2 * k) + s;
    if k == 0 {
      assert run == s;
    } else {
      RunOfEscapes(k - 1, s, e);
      assert run[2..] == Repeat(ESC, 2 * (k - 1)) + s;
      assert Repeat(ESC, k) == [ESC] + Repeat(ESC, k - 1);
    }
  }
}
