/** fgets(): a text is read line by line, and lines that are too long for the buffer in pieces. */
module LineReader {
  import opened Text
  import opened ConfigParser

  /** The number of characters of the first line, with its newline, but at most `max`. */
  function LineLen(s: string, max: nat): (n: nat)
    requires max > 0
    ensures n <= |s| && n <= max && (s != [] ==> n > 0)
  {
    if s == [] then 0 else if s[0] == '\n' || max == 1 then 1 else 1 + LineLen(s[1..], max - 1)
  }

  /** A piece ends with the first newline, or because the buffer is full or the text at its end. */
  lemma {:induction false} LineLenIs(s: string, max: nat)
    requires max > 0 && s != []
    ensures var n := LineLen(s, max); '\n' !in s[..n - 1] && (s[n - 1] == '\n' || n == max || n == |s|)
  {
    if s[0] != '\n' && max > 1 && |s| > 1 {
      LineLenIs(s[1..], max - 1);
      var n := LineLen(s, max);
      assert s[..n - 1] == [s[0]] + s[1..][..n - 2];
    }
  }

  function Pieces(s: string, max: nat): seq<string>
    requires max > 0
  {
    if s == [] then [] else [s[..LineLen(s, max)]] + Pieces(s[LineLen(s, max)..], max)
  }

  /** fgets() in front of the text s. */
  method Fgets(buf: array<char>, s: string) returns (n: nat)
    requires buf.Length >= 2 && NUL !in s
    modifies buf
    ensures n == LineLen(s, buf.Length - 1) && Holds(buf[..], 0, s[..n])
  {
    n := 0;
    var more := s != [];
    assert s[0..] == s;
    while more
      invariant n <= |s| && n < buf.Length && buf[..n] == s[..n]
      invariant more ==> n < |s| && n + 1 < buf.Length
      invariant LineLen(s, buf.Length - 1) == n + if more then LineLen(s[n..], buf.Length - 1 - n) else 0
      decreases more, |s| - n
    {
      assert s[n..][1..] == s[n + 1..];
      buf[n] := s[n];
      more := s[n] != '\n' && n + 2 < buf.Length && n + 1 < |s|;
      n := n + 1;
    }
    buf[n] := NUL;
    assert forall c :: c in s[..n] ==> c in s;
    assert buf[..][0..n] == buf[..n];
  }

  /** A text of lines, each with its newline at the end. */
  predicate IsLine(l: string) {
    l != [] && l[|l| - 1] == '\n' && '\n' !in l[..|l| - 1]
  }

  function Concat(lines: seq<string>): string {
    if lines == [] then [] else lines[0] + Concat(lines[1..])
  }

  lemma {:induction false} LineLenOf(l: string, rest: string, max: nat)
    requires IsLine(l) && |l| <= max
    ensures LineLen(l + rest, max) == |l|
  {
    var s := l + rest;
    assert s[0] == l[0];
    if |l| > 1 {
      assert l[0] in l[..|l| - 1] && s[1..] == l[1..] + rest;
      assert l[1..][..|l| - 2] == l[..|l| - 1][1..];
      LineLenOf(l[1..], rest, max - 1);
    }
  }

  /** Lines that fit are read one by one. */
  lemma {:induction false} PiecesOfLines(lines: seq<string>, max: nat)
    requires max > 0 && forall k :: 0 <= k < |lines| ==> IsLine(lines[k]) && |lines[k]| <= max
    ensures Pieces(Concat(lines), max) == lines
  {
    if lines != [] {
      var l, rest := lines[0], Concat(lines[1..]);
      LineLenOf(l, rest, max);
      assert (l + rest)[..|l|] == l && (l + rest)[|l|..] == rest;
      PiecesOfLines(lines[1..], max);
    }
  }

  /** The pieces are the text, cut up. */
  lemma {:induction false} PiecesJoin(s: string, max: nat)
    requires max > 0
    ensures Concat(Pieces(s, max)) == s
  {
    if s != [] {
      var front, back := s[..LineLen(s, max)], s[LineLen(s, max)..];
      PiecesJoin(back, max);
      ConcatFirst(front, Pieces(back, max));
      assert Pieces(s, max) == [front] + Pieces(back, max);
      assert s == front + back;
    }
  }

  lemma ConcatFirst(a: string, lines: seq<string>)
    ensures Concat([a] + lines) == a + Concat(lines)
  {
    assert ([a] + lines)[1..] == lines;
  }
}

/** parse_file() */
module ConfigFile {
  import opened Text
  import opened Config
  import opened ConfigParser
  import opened LineReader

  /** The lines of a file, as fgets() gives them: stops at the first one that is refused or fills
      the buffer. */
  function FileLines(t: Table, c: Conf, lines: seq<string>, max: nat): (r: (Conf, bool))
    requires Typed(t, c)
    ensures Typed(t, r.0)
    decreases |lines|
  {
    if lines == [] then (c, true)
    else if |lines[0]| == max then (c, false)
    else
      var (c', ok) := Apply(t, c, lines[0]);
      if ok then FileLines(t, c', lines[1..], max) else (c', false)
  }

  /** Where no line fills the buffer, a file means its lines. */
  lemma {:induction false} ShortLines(t: Table, c: Conf, lines: seq<string>, max: nat)
    requires Typed(t, c) && forall k :: 0 <= k < |lines| ==> |lines[k]| != max
    ensures FileLines(t, c, lines, max) == ApplyAll(t, c, lines)
    decreases |lines|
  {
    if lines != [] {
      ShortLines(t, Apply(t, c, lines[0]).0, lines[1..], max);
    }
  }

  /** One line of the file, which was read into the buffer. */
  method ParsePiece(st: ConfigState, line: array<char>, ghost s: string) returns (ok: bool)
    requires st.Valid() && Holds(line[..], 0, s)
    modifies st, st.lists, st.lists.live, line
    ensures st.Valid() && fresh(st.lists.live - old(st.lists.live))
    ensures (st.conf, ok) == if |s| == line.Length - 1 then (old(st.conf), false) else Apply(st.table, old(st.conf), s)
  {
    var n := StrLenAt(line, 0, s);
    if n == line.Length - 1 {
      return false;
    }
    HoldsCString(line[..], 0, s);
    assert line[..][0..] == line[..];
    var rc := st.ParseLine(line);
    ok := rc == 0;
  }

  /** parse_file(), on a file that could be opened: whatever its lines, the lists of all options
      stay acyclic and disjoint, and the configuration is what the lines say. */
  method ParseFile(st: ConfigState, line: array<char>, content: string) returns (ok: bool)
    requires st.Valid() && line.Length >= 2 && NUL !in content
    modifies st, st.lists, st.lists.live, line
    ensures st.Valid() && fresh(st.lists.live - old(st.lists.live))
    ensures (st.conf, ok) ==
            FileLines(st.table, old(st.conf), Pieces(content, line.Length - 1), line.Length - 1)
  {
    var rest, max := content, line.Length - 1;
    ok := true;
    while ok && rest != []
      invariant st.Valid() && fresh(st.lists.live - old(st.lists.live)) && NUL !in rest
      invariant FileLines(st.table, old(st.conf), Pieces(content, max), max) ==
                if ok then FileLines(st.table, st.conf, Pieces(rest, max), max) else (st.conf, false)
      decreases |rest|
    {
      var n := Fgets(line, rest);
      ok := ParsePiece(st, line, rest[..n]);
      assert forall c :: c in rest[n..] ==> c in rest;
      assert Pieces(rest, max)[0] == rest[..n] && Pieces(rest, max)[1..] == Pieces(rest[n..], max);
      rest := rest[n..];
    }
  }
}
