/**
 open_output()'s expansion loop: one buffer holds the raw pattern at its front and receives
 the expanded name at its back, from right to left.
 */
module InPlace {
  import opened Text
  import opened Expansion

  /** is_escape(): the run of escape characters that ends at idx has odd length. */
  method IsEscape(str: array<char>, idx: int) returns (r: bool)
    requires -1 <= idx < str.Length
    ensures r == Pending(str[..], idx + 1)
  {
    var i := idx;
    while i >= 0 && str[i] == ESC
      invariant -1 <= i <= idx
      invariant Pending(str[..], idx + 1) == (((idx - i) % 2 == 1) != Pending(str[..], i + 1))
    {
      i := i - 1;
    }
    r := (idx - i) % 2 == 1;
  }

  /** The pending state depends only on the characters before it. */
  lemma {:induction false} PendingPrefix(a: string, b: string, k: nat)
    requires k <= |a| && k <= |b| && a[..k] == b[..k]
    ensures Pending(a, k) == Pending(b, k)
  {
    if k > 0 {
      assert a[k - 1] == a[..k][k - 1] == b[k - 1];
      assert a[..k - 1] == a[..k][..k - 1] == b[..k - 1];
      PendingPrefix(a, b, k - 1);
    }
  }

  /** The token that ends before the boundary i + 1: where it starts and what it stands for. */
  lemma LastToken(full: string, i: nat, e: Env)
    requires i < |full| && Boundary(full, i + 1)
    ensures Pending(full, i) ==>
              i > 0 && full[i - 1] == ESC && Boundary(full, i - 1) &&
              Expand(full[i - 1..], e) == WildCard(full[i], e) + Expand(full[i + 1..], e)
    ensures !Pending(full, i) ==>
              full[i] != ESC &&
              Expand(full[i..], e) == [full[i]] + Expand(full[i + 1..], e)
  {
    if Pending(full, i) {
      assert full[i - 1..][1] == full[i] && full[i - 1..][2..] == full[i + 1..];
    } else {
      assert full[i..][1..] == full[i + 1..];
    }
  }

  /** The terminating NUL expands to itself, also after a lone trailing escape character. */
  lemma {:induction false} ExpandTerminated(s: string, e: Env)
    ensures Expand(s + [NUL], e) == Expand(s, e) + [NUL]
  {
    var full := s + [NUL];
    if s == [] {
      assert full[1..] == [];
    } else if s[0] != ESC {
      assert full[1..] == s[1..] + [NUL];
      ExpandTerminated(s[1..], e);
    } else if |s| == 1 {
      assert full[2..] == [] && s[1..] == [];
    } else {
      assert full[2..] == s[2..] + [NUL];
      ExpandTerminated(s[2..], e);
    }
  }

  /** How many times the copy loop for the executable checks the room that is left. */
  function RoomChecks(x: char, exe: string): nat {
    if x == 'E' then |exe|
    else if '/' in exe then |BaseName(exe)| + 1
    else |BaseName(exe)|
  }

  /** What the copy loop has produced once it has read this much of the end of the name. */
  function ExeText(x: char, exe: string): (t: string)
    ensures |t| == |exe|
  {
    if x == 'e' then exe else BangName(exe)
  }

  lemma ExeTextStep(x: char, exe: string, p: nat)
    requires p < |exe|
    ensures ExeText(x, exe[p..]) == [if x == 'e' then exe[p] else Bang(exe[p])] + ExeText(x, exe[p + 1..])
  {
    assert exe[p..] == [exe[p]] + exe[p + 1..] && exe[p..][1..] == exe[p + 1..];
  }

  /** When the copy loop stops at index p, it has copied exactly the wild card's text. */
  lemma ExeTextDone(x: char, e: Env, p: int)
    requires (x == 'e' || x == 'E') && -1 <= p < |e.exe|
    requires x == 'e' ==> '/' !in e.exe[p + 1..]
    requires p >= 0 ==> x == 'e' && e.exe[p] == '/'
    ensures ExeText(x, e.exe[p + 1..]) == WildCard(x, e)
    ensures RoomChecks(x, e.exe) == |e.exe| - p - (if p >= 0 then 0 else 1)
  {
    var exe := e.exe;
    if x == 'E' {
      assert exe[0..] == exe;
    } else {
      BaseNameFrom(exe, p + 1);
      assert p < 0 ==> exe[0..] == exe;
    }
  }

  lemma RoomChecksAtLeast(x: char, exe: string, p: nat)
    requires (x == 'e' || x == 'E') && p < |exe|
    requires x == 'e' ==> '/' !in exe[p + 1..]
    ensures RoomChecks(x, exe) >= |exe| - p
  {
    if x == 'e' {
      BaseNameFrom(exe, p + 1);
    }
  }

  method PutChar(path: array<char>, j: nat, c: char)
    requires j < path.Length
    modifies path
    ensures path[..j] == old(path[..j])
    ensures path[j..] == [c] + old(path[j + 1..])
  {
    path[j] := c;
  }

  /** The copy loop before it reads index p of the name. */
  ghost predicate CopyState(buf: string, front: string, rest: string, i: nat, j: int, j0: nat, exe: string,
        x: char, p: int) {
    && -1 <= p < |exe| && i <= j < |buf| && j == j0 - (|exe| - 1 - p)
    && |front| == i + 1 && buf[..i + 1] == front && front[i] == x
    && (x == 'e' ==> '/' !in exe[p + 1..])
    && buf[j + 1..] == ExeText(x, exe[p + 1..]) + rest
  }

  lemma CopyStep(buf: string, buf': string, front: string, rest: string, i: nat, j: int, j0: nat, exe: string,
        x: char, p: nat)
    requires CopyState(buf, front, rest, i, j, j0, exe, x, p) && i < j && (x == 'e' ==> exe[p] != '/')
    requires |buf'| == |buf| && buf'[..j] == buf[..j]
    requires buf'[j..] == [if x == 'e' then exe[p] else Bang(exe[p])] + buf[j + 1..]
    ensures CopyState(buf', front, rest, i, j - 1, j0, exe, x, p - 1)
  {
    ExeTextStep(x, exe, p);
    Associative([if x == 'e' then exe[p] else Bang(exe[p])], ExeText(x, exe[p + 1..]), rest);
    assert buf'[..i + 1] == buf'[..j][..i + 1] == buf[..j][..i + 1] == buf[..i + 1];
    assert exe[p..] == [exe[p]] + exe[p + 1..];
  }

  /** One character of the name, with '/' replaced by '!'. */
  method PutExe(path: array<char>, j: int, c: char,
                ghost front: string, ghost rest: string, ghost i: nat, ghost j0: nat, ghost exe: string,
                ghost x: char, ghost p: nat)
    requires CopyState(path[..], front, rest, i, j, j0, exe, x, p) && i < j && c == exe[p] && (x == 'e' ==> c != '/')
    modifies path
    ensures CopyState(path[..], front, rest, i, j - 1, j0, exe, x, p - 1)
  {
    ghost var was := path[..];
    if c == '/' {
      PutChar(path, j, '!');
    } else {
      PutChar(path, j, c);
    }
    CopyStep(was, path[..], front, rest, i, j, j0, exe, x, p);
  }

  datatype Round = Copied | AtSlash | OutOfRoom

  /** One round of the copy loop, which re-reads the wild card from the buffer. */
  method ExeRound(path: array<char>, i: nat, j: int, exe: string, p: nat,
                  ghost front: string, ghost rest: string, ghost j0: nat, ghost x: char) returns (r: Round)
    requires CopyState(path[..], front, rest, i, j, j0, exe, x, p) && (x == 'e' || x == 'E')
    modifies path
    ensures r == Copied ==> CopyState(path[..], front, rest, i, j - 1, j0, exe, x, p - 1)
    ensures r != Copied ==> path[..] == old(path[..])
    ensures r == OutOfRoom <==> j <= i
    ensures r == AtSlash ==> x == 'e' && exe[p] == '/'
  {
    assert path[i] == path[..][..i + 1][i] == x;
    if j <= i {
      return OutOfRoom;
    }
    if exe[p] == '/' && path[i] == 'e' {
      return AtSlash;
    }
    PutExe(path, j, exe[p], front, rest, i, j0, exe, x, p);
    return Copied;
  }

  /** The copy loop runs until it is out of room, at a slash, or through the name. */
  method CopyLoop(path: array<char>, i: nat, j0: nat, exe: string, ghost front: string, ghost rest: string,
        ghost x: char)
    returns (ok: bool, j: int, p: int)
    requires CopyState(path[..], front, rest, i, j0, j0, exe, x, |exe| - 1) && (x == 'e' || x == 'E')
    modifies path
    ensures CopyState(path[..], front, rest, i, j, j0, exe, x, p)
    ensures !ok ==> p >= 0 && j <= i
    ensures ok ==> p < 0 || (j > i && x == 'e' && exe[p] == '/')
  {
    ok, j, p := true, j0, |exe| - 1;
    while p >= 0
      invariant CopyState(path[..], front, rest, i, j, j0, exe, x, p)
    {
      var round := ExeRound(path, i, j, exe, p, front, rest, j0, x);
      if round != Copied {
        return round == AtSlash, j, p;
      }
      p := p - 1;
      j := j - 1;
    }
  }

  /** The wild cards for the executable; on return j is the position before the copied text. */
  method CopyExe(path: array<char>, i: nat, j0: nat, e: Env, ghost x: char) returns (ok: bool, j: int)
    requires i <= j0 < path.Length && path[i] == x && (x == 'e' || x == 'E')
    modifies path
    ensures path[..i + 1] == old(path[..i + 1])
    ensures ok <==> RoomChecks(x, e.exe) == 0 || j0 - RoomChecks(x, e.exe) >= i
    ensures ok ==> i <= j == j0 - |WildCard(x, e)|
    ensures ok ==> path[j + 1..] == WildCard(x, e) + old(path[j0 + 1..])
  {
    ghost var front, rest := path[..i + 1], path[j0 + 1..];
    CopyStarts(path[..], i, j0, e.exe, x);
    var p;
    ok, j, p := CopyLoop(path, i, j0, e.exe, front, rest, x);
    if ok {
      CopyFinished(path[..], front, rest, i, j, j0, e, x, p);
    } else {
      CopyOutOfRoom(path[..], front, rest, i, j, j0, e, x, p);
    }
  }

  lemma CopyStarts(buf: string, i: nat, j0: nat, exe: string, x: char)
    requires i <= j0 < |buf| && buf[i] == x
    ensures CopyState(buf, buf[..i + 1], buf[j0 + 1..], i, j0, j0, exe, x, |exe| - 1)
  {
    assert ExeText(x, exe[|exe|..]) + buf[j0 + 1..] == buf[j0 + 1..];
  }

  /** The copy loop is out of room. */
  lemma CopyOutOfRoom(buf: string, front: string, rest: string, i: nat, j: int, j0: nat, e: Env, x: char, p: nat)
    requires CopyState(buf, front, rest, i, j, j0, e.exe, x, p) && (x == 'e' || x == 'E') && j <= i
    ensures RoomChecks(x, e.exe) > 0 && j0 - RoomChecks(x, e.exe) < i
  {
    RoomChecksAtLeast(x, e.exe, p);
  }

  /** The copy loop has come to a slash or to the end. */
  lemma CopyFinished(buf: string, front: string, rest: string, i: nat, j: int, j0: nat, e: Env, x: char, p: int)
    requires CopyState(buf, front, rest, i, j, j0, e.exe, x, p) && (x == 'e' || x == 'E')
    requires p < 0 || (j > i && x == 'e' && e.exe[p] == '/')
    ensures RoomChecks(x, e.exe) == 0 || j0 - RoomChecks(x, e.exe) >= i
    ensures j == j0 - |WildCard(x, e)| && buf[j + 1..] == WildCard(x, e) + rest
  {
    ExeTextDone(x, e, p);
  }

  /** Every mixed form from boundary `from` on fits. */
  ghost predicate FitsFrom(s: string, e: Env, n: nat, from: nat) {
    forall k :: from <= k <= |s| && Boundary(s, k) ==> MixedForm(s, k, e) + Slack(s, k, e) <= n
  }

  /** The state of the expansion loop before it reads index i: the unread front of the buffer
      is the raw pattern, the back is the expansion of what was read, and i ends a token. */
  ghost predicate LoopState(buf: string, i: int, j: int, src: string, e: Env) {
    && 0 <= i <= j < |buf| && i <= |src|
    && Boundary(src + [NUL], i + 1)
    && buf[..i + 1] == (src + [NUL])[..i + 1]
    && buf[j + 1..] == Expand((src + [NUL])[i + 1..], e)
    && FitsFrom(src, e, |buf|, i + 1)
  }

  /** Writing out the token that starts at t and stands for w moves the loop from i to t - 1. */
  lemma TokenWritten(src: string, e: Env, buf: string, i: nat, j: nat, buf': string, t: nat, w: string)
    requires LoopState(buf, i, j, src, e)
    requires 0 < t <= i && i <= t + 1 && Boundary(src + [NUL], t) && (t < i ==> Pending(src + [NUL], i))
    requires Expand((src + [NUL])[t..], e) == w + Expand((src + [NUL])[i + 1..], e)
    requires |buf'| == |buf| && t - 1 <= j - |w|
    requires buf'[..t] == buf[..t] && buf'[j + 1 - |w|..] == w + buf[j + 1..]
    requires t + |w| + |buf[j + 1..]| + Slack(src, t, e) <= |buf|
    ensures LoopState(buf', t - 1, j - |w|, src, e)
  {
    var full := src + [NUL];
    assert buf[..t] == buf[..i + 1][..t] == full[..t];
    forall k | t <= k <= |src| && Boundary(src, k)
      ensures MixedForm(src, k, e) + Slack(src, k, e) <= |buf|
    {
      PendingPrefix(src, full, k);
      if k == t {
        MixedFormOfFull(src, t, e);
      }
    }
  }

  lemma MixedFormOfFull(src: string, t: nat, e: Env)
    requires t <= |src|
    ensures MixedForm(src, t, e) == t + |Expand((src + [NUL])[t..], e)|
  {
    ExpandTerminated(src[t..], e);
    assert (src + [NUL])[t..] == src[t..] + [NUL];
  }

  /** A token that starts at t and does not fit refutes Fits. */
  lemma TokenTooLong(src: string, e: Env, buf: string, i: nat, j: nat, w: string)
    requires LoopState(buf, i, j, src, e) && 0 < i < |src| + 1 && Pending(src + [NUL], i)
    requires Expand((src + [NUL])[i - 1..], e) == w + Expand((src + [NUL])[i + 1..], e)
    requires i - 1 + |w| + |buf[j + 1..]| + Slack(src, i - 1, e) > |buf|
    ensures !Fits(src, e, |buf|)
  {
    MixedFormOfFull(src, i - 1, e);
    PendingPrefix(src, src + [NUL], i - 1);
    assert Boundary(src, i - 1);
  }

  /** An ordinary character. */
  method CopyOrdinary(path: array<char>, i: int, j: int, e: Env, ghost src: string)
    requires LoopState(path[..], i, j, src, e) && i >= 1 && !Pending(src + [NUL], i)
    modifies path
    ensures LoopState(path[..], i - 1, j - 1, src, e)
  {
    ghost var was, full := path[..], src + [NUL];
    LastToken(full, i, e);
    assert path[i] == path[..i + 1][i] == full[i];
    PutChar(path, j, path[i]);
    assert path[..i] == path[..j][..i] == was[..j][..i] == was[..i];
    TokenWritten(src, e, was, i, j, path[..], i, [full[i]]);
  }

  /** "@@" */
  method CopyEscape(path: array<char>, i: int, j: int, e: Env, ghost src: string)
    requires LoopState(path[..], i, j, src, e) && i >= 2 && Pending(src + [NUL], i)
    requires path[i] == ESC
    modifies path
    ensures LoopState(path[..], i - 2, j - 1, src, e)
  {
    ghost var was, full := path[..], src + [NUL];
    LastToken(full, i, e);
    assert path[i] == path[..i + 1][i] == full[i];
    PutChar(path, j, path[i]);
    assert path[..i - 1] == path[..j][..i - 1] == was[..j][..i - 1] == was[..i - 1];
    TokenWritten(src, e, was, i, j, path[..], i - 1, [ESC]);
  }

  /** The token "@x" that ends at i. */
  lemma TextToken(buf: string, i: int, j: int, e: Env, src: string, x: char, text: string)
    requires LoopState(buf, i, j, src, e) && i >= 2 && Pending(src + [NUL], i)
    requires buf[i] == x && (x == 'p' || x == 'Q') && text == WildCard(x, e)
    ensures Boundary(src + [NUL], i - 1) && Slack(src, i - 1, e) == 0
    ensures Expand((src + [NUL])[i - 1..], e) == text + Expand((src + [NUL])[i + 1..], e)
  {
    var full := src + [NUL];
    LastToken(full, i, e);
    assert buf[i] == buf[..i + 1][i] == full[i];
  }

  /** The text of a wild card goes in front of what is written already, unless it would reach
      below the wild card itself. */
  method WriteText(path: array<char>, i0: int, j0: int, text: string) returns (ok: bool, i: int, j: int)
    requires 1 <= i0 <= j0 < path.Length && |text| >= 1
    modifies path
    ensures ok <==> j0 - (|text| - 1) >= i0 - 1
    ensures ok ==> i == i0 - 2 && j == j0 - |text|
    ensures ok ==> path[..i0 - 1] == old(path[..i0 - 1]) && path[j + 1..] == text + old(path[j0 + 1..])
  {
    i, j := i0, j0;
    j := j - (|text| - 1);
    i := i - 1;
    if j < i {
      return false, i, j;
    }
    ghost var was := path[..];
    MemCpy(path, j, text);
    assert path[..i] == path[..j][..i] == was[..j][..i] == was[..i];
    i, j := i - 1, j - 1;
    ok := true;
  }

  /** "@p" and "@Q", whose text is bounded only by the start of the token. */
  method CopyText(path: array<char>, i0: int, j0: int, e: Env, text: string, ghost src: string)
    returns (ok: bool, i: int, j: int)
    requires LoopState(path[..], i0, j0, src, e) && i0 >= 2 && Pending(src + [NUL], i0)
    requires path[i0] == 'p' || path[i0] == 'Q'
    requires text == WildCard(path[i0], e) && |text| >= 1
    modifies path
    ensures ok ==> LoopState(path[..], i, j, src, e) && i == i0 - 2
    ensures !ok ==> !Fits(src, e, path.Length)
  {
    ghost var was := path[..];
    TextToken(was, i0, j0, e, src, path[i0], text);
    ok, i, j := WriteText(path, i0, j0, text);
    if ok {
      TokenWritten(src, e, was, i0, j0, path[..], i0 - 1, text);
    } else {
      TokenTooLong(src, e, was, i0, j0, text);
    }
  }

  /** "@e" and "@E". */
  method CopyExecutable(path: array<char>, i0: int, j0: int, e: Env, ghost src: string)
    returns (ok: bool, i: int, j: int)
    requires LoopState(path[..], i0, j0, src, e) && i0 >= 2 && Pending(src + [NUL], i0)
    requires path[i0] == 'e' || path[i0] == 'E'
    modifies path
    ensures ok ==> LoopState(path[..], i, j, src, e) && i == i0 - 2
    ensures !ok ==> !Fits(src, e, path.Length)
  {
    i, j := i0, j0;
    ghost var was, x := path[..], path[i];
    ok, j := CopyExe(path, i, j, e, x);
    if ok {
      i := i - 1;
      j := j + 1;
      i, j := i - 1, j - 1;
      ExecutableWritten(was, path[..], i0, j0, e, src, x);
    } else {
      ExecutableTooLong(was, i0, j0, e, src, x);
    }
  }

  lemma ExecutableWritten(buf: string, buf': string, i: int, j: int, e: Env, src: string, x: char)
    requires LoopState(buf, i, j, src, e) && i >= 2 && Pending(src + [NUL], i) && buf[i] == x && (x == 'e' || x == 'E')
    requires |buf'| == |buf| && buf'[..i + 1] == buf[..i + 1]
    requires RoomChecks(x, e.exe) == 0 || j - RoomChecks(x, e.exe) >= i
    requires i <= j - |WildCard(x, e)| && buf'[j - |WildCard(x, e)| + 1..] == WildCard(x, e) + buf[j + 1..]
    ensures LoopState(buf', i - 2, j - |WildCard(x, e)|, src, e)
  {
    ExecutableRoom(buf, i, j, e, src, x);
    ShorterPrefix(buf, buf', i + 1, i - 1);
    TokenWritten(src, e, buf, i, j, buf', i - 1, WildCard(x, e));
  }

  lemma ExecutableRoom(buf: string, i: int, j: int, e: Env, src: string, x: char)
    requires LoopState(buf, i, j, src, e) && i >= 2 && Pending(src + [NUL], i) && buf[i] == x && (x == 'e' || x == 'E')
    requires RoomChecks(x, e.exe) == 0 || j - RoomChecks(x, e.exe) >= i
    requires i <= j - |WildCard(x, e)|
    ensures Boundary(src + [NUL], i - 1)
    ensures Expand((src + [NUL])[i - 1..], e) == WildCard(x, e) + Expand((src + [NUL])[i + 1..], e)
    ensures i - 1 + |WildCard(x, e)| + (|buf| - (j + 1)) + Slack(src, i - 1, e) <= |buf|
  {
    ExecutableToken(buf, i, j, e, src);
    EnoughRoom(i, j, |buf|, |WildCard(x, e)|, RoomChecks(x, e.exe), Slack(src, i - 1, e));
  }

  lemma ShorterPrefix(a: string, b: string, n: nat, m: nat)
    requires m <= n <= |a| && n <= |b| && a[..n] == b[..n]
    ensures a[..m] == b[..m]
  {
    assert a[..n][..m] == a[..m] && b[..n][..m] == b[..m];
  }

  lemma EnoughRoom(i: nat, j: nat, n: nat, w: nat, checks: nat, slack: nat)
    requires i <= j < n && i <= j - w && (checks == 0 || j - checks >= i)
    requires slack == (if checks == 0 then w else checks - w + 2) && (checks == 0 ==> w == 0)
    ensures i - 1 + w + (n - (j + 1)) + slack <= n
  {
  }

  lemma ExecutableTooLong(buf: string, i: int, j: int, e: Env, src: string, x: char)
    requires LoopState(buf, i, j, src, e) && i >= 2 && Pending(src + [NUL], i) && buf[i] == x && (x == 'e' || x == 'E')
    requires RoomChecks(x, e.exe) > 0 && j - RoomChecks(x, e.exe) < i
    ensures !Fits(src, e, |buf|)
  {
    ExecutableToken(buf, i, j, e, src);
    TokenTooLong(src, e, buf, i, j, WildCard(x, e));
  }

  lemma ExecutableToken(buf: string, i: int, j: int, e: Env, src: string)
    requires LoopState(buf, i, j, src, e) && i >= 2 && Pending(src + [NUL], i) && (buf[i] == 'e' || buf[i] == 'E')
    ensures Boundary(src + [NUL], i - 1)
    ensures Expand((src + [NUL])[i - 1..], e) == WildCard(buf[i], e) + Expand((src + [NUL])[i + 1..], e)
    ensures var checks, w := RoomChecks(buf[i], e.exe), WildCard(buf[i], e);
            Slack(src, i - 1, e) == if checks == 0 then |w| else checks - |w| + 2
    ensures RoomChecks(buf[i], e.exe) == 0 ==> |WildCard(buf[i], e)| == 0
  {
    var full := src + [NUL];
    LastToken(full, i, e);
    assert buf[i] == buf[..i + 1][i] == full[i];
    SlackOfExecutable(src, i - 1, buf[i], e);
  }

  /** The copy loop checks the room once more than it copies when the name has a slash. */
  lemma SlackOfExecutable(src: string, t: nat, x: char, e: Env)
    requires t + 1 < |src + [NUL]| && (src + [NUL])[t] == ESC && (src + [NUL])[t + 1] == x
    requires x == 'e' || x == 'E'
    ensures RoomChecks(x, e.exe) == 0 ==> |WildCard(x, e)| == 0 && Slack(src, t, e) == 0
    ensures RoomChecks(x, e.exe) > 0 ==> Slack(src, t, e) == RoomChecks(x, e.exe) - |WildCard(x, e)| + 2
  {
    assert |src| >= t + 2 && src[t] == ESC && src[t + 1] == x;
    ChecksAndSlack(x, e);
  }

  lemma ChecksAndSlack(x: char, e: Env)
    requires x == 'e' || x == 'E'
    ensures RoomChecks(x, e.exe) == 0 <==> e.exe == []
    ensures RoomChecks(x, e.exe) == |WildCard(x, e)| + (if x == 'e' && '/' in e.exe then 1 else 0)
  {
    if x == 'e' {
      assert WildCard(x, e) == BaseName(e.exe);
      if '/' !in e.exe {
        BaseNameFrom(e.exe, 0);
      }
    } else {
      assert |WildCard(x, e)| == |BangName(e.exe)|;
    }
  }

  method WriteTwo(path: array<char>, i0: int, j0: int) returns (i: int, j: int)
    requires 1 <= i0 <= j0 < path.Length
    modifies path
    ensures i == i0 - 2 && j == j0 - 2
    ensures path[..i0 - 1] == old(path[..i0 - 1])
    ensures path[j + 1..] == [old(path[i0 - 1]), old(path[i0])] + old(path[j0 + 1..])
  {
    i, j := i0, j0;
    ghost var was := path[..];
    path[j] := path[i];
    i, j := i - 1, j - 1;
    path[j] := path[i];
    assert path[j..] == [path[j], path[j + 1]] + was[j + 2..];
    i, j := i - 1, j - 1;
  }

  /** An unknown wild card, or a lone escape character before the terminating NUL. */
  method CopyUnknown(path: array<char>, i0: int, j0: int, e: Env, ghost src: string) returns (i: int, j: int)
    requires LoopState(path[..], i0, j0, src, e) && i0 >= 2 && Pending(src + [NUL], i0)
    requires path[i0] !in "@pQeE"
    modifies path
    ensures LoopState(path[..], i, j, src, e) && i == i0 - 2
  {
    ghost var was, full := path[..], src + [NUL];
    UnknownToken(was, i0, j0, e, src);
    i, j := WriteTwo(path, i0, j0);
    TokenWritten(src, e, was, i0, j0, path[..], i0 - 1, [ESC, was[i0]]);
  }

  lemma UnknownToken(buf: string, i: int, j: int, e: Env, src: string)
    requires LoopState(buf, i, j, src, e) && i >= 2 && Pending(src + [NUL], i) && buf[i] !in "@pQeE"
    ensures buf[i - 1] == ESC && Boundary(src + [NUL], i - 1) && Slack(src, i - 1, e) == 0
    ensures Expand((src + [NUL])[i - 1..], e) == [ESC, buf[i]] + Expand((src + [NUL])[i + 1..], e)
  {
    var full, x := src + [NUL], buf[i];
    LastToken(full, i, e);
    assert x == buf[..i + 1][i] == full[i] && buf[i - 1] == buf[..i + 1][i - 1] == full[i - 1];
    assert x != "@pQeE"[0] && x != "@pQeE"[1] && x != "@pQeE"[2] && x != "@pQeE"[3] && x != "@pQeE"[4];
  }

  /** One round of the expansion loop: reads the token that ends at i. */
  method ExpandToken(path: array<char>, i0: int, j0: int, e: Env, ghost src: string)
    returns (ok: bool, i: int, j: int)
    requires LoopState(path[..], i0, j0, src, e) && i0 >= 1
    requires src != [] && src[0] != ESC && e.pid != [] && e.sequence != []
    modifies path
    ensures ok ==> LoopState(path[..], i, j, src, e) && i < i0
    ensures !ok ==> !Fits(src, e, path.Length)
  {
    ok, i, j := true, i0, j0;
    PendingPrefix(path[..], src + [NUL], i);
    var esc := IsEscape(path, i - 1);
    if !esc {
      CopyOrdinary(path, i, j, e, src);
      i, j := i - 1, j - 1;
    } else {
      LastToken(src + [NUL], i, e);
      match path[i] {
        case '@' =>
          CopyEscape(path, i, j, e, src);
          i, j := i - 2, j - 1;
        case 'p' =>
          ok, i, j := CopyText(path, i, j, e, e.pid, src);
        case 'Q' =>
          ok, i, j := CopyText(path, i, j, e, e.sequence, src);
        case 'e' =>
          ok, i, j := CopyExecutable(path, i, j, e, src);
        case 'E' =>
          ok, i, j := CopyExecutable(path, i, j, e, src);
        case _ =>
          i, j := CopyUnknown(path, i, j, e, src);
      }
    }
  }

  /** The expansion loop of open_output(): succeeds exactly when the pattern fits, and then
      leaves the expansion of the pattern as a C string at path + j. */
  method ExpandInPlace(path: array<char>, e: Env) returns (ok: bool, j: int)
    requires NUL in path[..] && e.pid != [] && e.sequence != []
    requires CString(path[..]) != [] && CString(path[..])[0] == '/'
    modifies path
    ensures ok <==> Fits(CString(old(path[..])), e, path.Length)
    ensures ok ==> 0 <= j < path.Length && path[j..] == Expand(CString(old(path[..])), e) + [NUL]
  {
    ghost var src := CString(path[..]);
    assert path[0..] == path[..];
    var i := StrLen(path, 0);
    j := path.Length - 1;
    LoopStarts(path[..], src, e);
    while i >= 1
      invariant LoopState(path[..], i, j, src, e)
    {
      ok, i, j := ExpandToken(path, i, j, e, src);
      if !ok {
        return;
      }
    }
    ghost var was := path[..];
    PutChar(path, j, '/');
    LoopEnds(was, path[..], j, src, e);
    ok := true;
  }

  lemma LoopStarts(buf: string, src: string, e: Env)
    requires |src| < |buf| && buf[..|src|] == src && buf[|src|] == NUL
    ensures LoopState(buf, |src|, |buf| - 1, src, e)
  {
    var full := src + [NUL];
    assert buf[..|src| + 1] == full[..|src| + 1] && full[|src| + 1..] == [] && buf[|buf|..] == [];
  }

  lemma LoopEnds(buf: string, buf': string, j: int, src: string, e: Env)
    requires LoopState(buf, 0, j, src, e) && src != [] && src[0] == '/'
    requires |buf'| == |buf| && buf'[j..] == ['/'] + buf[j + 1..]
    ensures Fits(src, e, |buf|) && buf'[j..] == Expand(src, e) + [NUL]
  {
    var full := src + [NUL];
    assert full[1..] == src[1..] + [NUL];
    ExpandTerminated(src[1..], e);
    assert MixedForm(src, 0, e) == MixedForm(src, 1, e) && !Pending(src, 1) by {
      assert src[0..] == src;
    }
  }
}
