/** Which lines of a configuration are ignored, which are refused and which assign a value, by
    their characters. */
module LineMeaning {
  import opened Config
  import opened ConfigPrinting
  import opened ConfigRoundTrip
  import opened ConfigFile

  predicate Blank(s: string) {
    forall k :: 0 <= k < |s| ==> IsSpace(s[k])
  }

  /** A word that may be a keyword. */
  predicate KeywordWord(w: string) {
    PlainWord(w) && w[0] != '#'
  }

  /** What may follow the keyword up to the '=' of the line. */
  predicate BetweenText(a: string) {
    '=' !in a && (a == [] || IsSpace(a[0]))
  }

  /** The forms of a line: nothing but white space before its end, its '=' or a '#'; a word and
      no value; and a word with a value. */
  datatype Form =
    | Ignored(blank: string, rest: string)
    | NoValue(blank: string, word: string, between: string, tail: string)
    | Value(blank: string, word: string, between: string, before: string, value: string, after: string)

  predicate Proper(f: Form) {
    match f
    case Ignored(blank, rest) => Blank(blank) && (rest == [] || rest[0] == '=' || rest[0] == '#')
    case NoValue(blank, word, between, tail) =>
      && Blank(blank) && KeywordWord(word) && BetweenText(between)
      && (tail == [] || (tail[0] == '=' && Blank(tail[1..])))
    case Value(blank, word, between, before, value, after) =>
      && Blank(blank) && KeywordWord(word) && BetweenText(between)
      && Blank(before) && Trimmed(value) && Blank(after)
  }

  function LineOf(f: Form): string {
    match f
    case Ignored(blank, rest) => blank + rest
    case NoValue(blank, word, between, tail) => blank + (word + between) + tail
    case Value(blank, word, between, before, value, after) =>
      blank + (word + between) + "=" + (before + (value + after))
  }

  // ---------- pieces of a line ----------

  lemma {:induction false} SpaceLenOf(blank: string, rest: string)
    requires Blank(blank) && (rest == [] || !IsSpace(rest[0]))
    ensures SpaceLen(blank + rest) == |blank| && Strip(blank + rest) == rest
  {
    var s := blank + rest;
    if blank == [] {
      assert s == rest;
    } else {
      assert s[0] == blank[0] && s[1..] == blank[1..] + rest;
      SpaceLenOf(blank[1..], rest);
    }
    assert s[|blank|..] == rest;
  }

  lemma {:induction false} ChompLenOf(value: string, after: string)
    requires value != [] && !IsSpace(value[|value| - 1]) && Blank(after)
    ensures Chomp(value + after) == value
  {
    var s := value + after;
    if after == [] {
      assert s == value;
      ChompOfTrimmed(value);
    } else {
      var shorter := after[..|after| - 1];
      assert s[..|s| - 1] == value + shorter && s[|s| - 1] == after[|after| - 1];
      ChompLenOf(value, shorter);
      assert s[..|value|] == value && (value + shorter)[..|value|] == value;
    }
  }

  lemma {:induction false} NoEqualsAt(s: string)
    requires '=' !in s
    ensures EqualsAt(s) == |s|
  {
    if s != [] {
      assert s[0] in s && forall c :: c in s[1..] ==> c in s;
      NoEqualsAt(s[1..]);
    }
  }

  lemma {:induction false} EqualsAtFirst(left: string, right: string)
    requires '=' !in left
    ensures EqualsAt(left + "=" + right) == |left|
    ensures (left + "=" + right)[..|left|] == left && (left + "=" + right)[|left| + 1..] == right
  {
    assert forall k :: 0 <= k < |left| ==> left[k] in left;
    EqualsAtIs(left, right);
  }

  lemma NoEqualsInBlank(s: string)
    requires Blank(s)
    ensures '=' !in s
  {
    forall k | 0 <= k < |s| ensures s[k] != '=' {
      assert IsSpace(s[k]);
    }
  }

  lemma NoEqualsInWord(w: string)
    requires PlainWord(w)
    ensures '=' !in w
  {
    forall k | 0 <= k < |w| ensures w[k] != '=' {
      assert !IsSpace(w[k]) && w[k] != '=';
    }
  }

  /** The keyword of a line is the word behind the white space at its front. */
  lemma KeywordOf(blank: string, word: string, between: string)
    requires Blank(blank) && PlainWord(word) && BetweenText(between)
    ensures FirstWord(blank + (word + between)) == word && '=' !in blank + (word + between)
  {
    SpaceLenOf(blank, word + between);
    FirstWordOf(word, between);
    assert Strip(word + between) == word + between by {
      NoSpaceAtFront(word + between);
    }
    NoEqualsInBlank(blank);
    NoEqualsInWord(word);
  }

  // ---------- what the forms mean ----------

  lemma IgnoredSplits(blank: string, rest: string)
    requires Blank(blank) && (rest == [] || rest[0] == '=' || rest[0] == '#')
    ensures Split(blank + rest) == Nothing
  {
    var line := blank + rest;
    NoEqualsInBlank(blank);
    var k := EqualsAt(line);
    if rest == [] || rest[0] == '=' {
      BlankBefore(blank, rest);
      assert line[..k] == blank + [];
      SpaceLenOf(blank, []);
    } else {
      EqualsBehind(blank, rest);
      assert line[..k] == blank + rest[..k - |blank|];
      SpaceLenOf(blank, rest[..k - |blank|]);
      WordBegins(rest[..k - |blank|]);
    }
  }

  lemma BlankBefore(blank: string, rest: string)
    requires '=' !in blank && (rest == [] || rest[0] == '=')
    ensures EqualsAt(blank + rest) == |blank|
  {
    if rest == [] {
      assert blank + rest == blank;
      NoEqualsAt(blank);
    } else {
      assert blank + rest == blank + "=" + rest[1..];
      EqualsAtFirst(blank, rest[1..]);
    }
  }

  lemma EqualsBehind(blank: string, rest: string)
    requires '=' !in blank && rest != [] && rest[0] != '='
    ensures EqualsAt(blank + rest) > |blank|
  {
    var line := blank + rest;
    assert line[|blank|] == rest[0];
    forall k | 0 <= k < |blank| ensures line[k] != '=' {
      assert line[k] == blank[k] && blank[k] in blank;
    }
  }

  lemma WordBegins(s: string)
    requires s != [] && !IsSpace(s[0])
    ensures FirstWord(s) != [] && FirstWord(s)[0] == s[0]
  {
    NoSpaceAtFront(s);
  }

  lemma NoValueSplits(left: string, word: string, tail: string)
    requires KeywordWord(word) && FirstWord(left) == word && '=' !in left
    requires tail == [] || (tail[0] == '=' && Blank(tail[1..]))
    ensures Split(left + tail) == MissingValue(word)
  {
    if tail == [] {
      assert left + tail == left && left[..|left|] == left;
      NoEqualsAt(left);
    } else {
      assert left + tail == left + "=" + tail[1..];
      EqualsAtFirst(left, tail[1..]);
      assert tail[1..] + [] == tail[1..];
      SpaceLenOf(tail[1..], []);
    }
  }

  lemma ValueSplits(left: string, word: string, before: string, value: string, after: string)
    requires KeywordWord(word) && FirstWord(left) == word && '=' !in left
    requires Blank(before) && Trimmed(value) && Blank(after)
    ensures Split(left + "=" + (before + (value + after))) == Assign(word, value)
  {
    EqualsAtFirst(left, before + (value + after));
    SpaceLenOf(before, value + after);
    ChompLenOf(value, after);
  }

  /** The index of the keyword that is this word. */
  predicate IsKeyword(t: Table, i: nat, word: string) {
    i < |t| && t[i].name == word && forall k :: 0 <= k < i ==> t[k].name != word
  }

  lemma {:induction false} FindUnknown(t: Table, word: string)
    requires forall k :: 0 <= k < |t| ==> t[k].name != word
    ensures Find(t, word) == |t|
  {
    if t != [] {
      assert t[0].name != word;
      FindUnknown(t[1..], word);
    }
  }

  /** What parse_line() does with each form of a line: one that is ignored changes nothing and is
      accepted; one without a value, or whose word is no keyword, changes nothing and is refused;
      any other gives its value to the parser of its keyword. */
  lemma FormMeans(t: Table, c: Conf, f: Form)
    requires Typed(t, c) && Proper(f)
    ensures f.Ignored? ==> Apply(t, c, LineOf(f)) == (c, true)
    ensures f.NoValue? ==> Apply(t, c, LineOf(f)) == (c, false)
    ensures f.Value? && (forall k :: 0 <= k < |t| ==> t[k].name != f.word) ==> Apply(t, c, LineOf(f)) == (c, false)
    ensures f.Value? ==>
              forall i: nat :: IsKeyword(t, i, f.word) ==>
                Apply(t, c, LineOf(f)) ==
                (c[i := ParseValue(t[i].kind, c[i], f.value).0], ParseValue(t[i].kind, c[i], f.value).1)
  {
    match f
    case Ignored(blank, rest) => IgnoredSplits(blank, rest);
    case NoValue(blank, word, between, tail) =>
      KeywordOf(blank, word, between);
      NoValueSplits(blank + (word + between), word, tail);
    case Value(blank, word, between, before, value, after) =>
      KeywordOf(blank, word, between);
      ValueSplits(blank + (word + between), word, before, value, after);
      if forall k :: 0 <= k < |t| ==> t[k].name != word {
        FindUnknown(t, word);
      }
      forall i: nat | IsKeyword(t, i, word) ensures Find(t, word) == i {
        FindIs(t, i);
      }
  }

  /** A keyword and a value, with white space around them. */
  lemma KeywordLine(t: Table, c: Conf, i: nat, v: string, blank: string, between: string, before: string, after: string)
    requires GoodTable(t) && Typed(t, c) && i < |t| && Trimmed(v)
    requires Blank(blank) && Blank(between) && Blank(before) && Blank(after)
    ensures Apply(t, c, blank + (t[i].name + between) + "=" + (before + (v + after))) ==
            (c[i := ParseValue(t[i].kind, c[i], v).0], ParseValue(t[i].kind, c[i], v).1)
  {
    var f := Form.Value(blank, t[i].name, between, before, v, after);
    NoEqualsInBlank(between);
    assert IsKeyword(t, i, f.word);
    FormMeans(t, c, f);
  }

  // ---------- every line has a form ----------

  lemma {:induction false} FirstVisible(s: string) returns (blank: string, rest: string)
    ensures s == blank + rest && Blank(blank) && (rest == [] || !IsSpace(rest[0]))
  {
    if s == [] || !IsSpace(s[0]) {
      blank, rest := [], s;
    } else {
      var b;
      b, rest := FirstVisible(s[1..]);
      blank := [s[0]] + b;
    }
  }

  lemma {:induction false} LastVisible(s: string) returns (value: string, after: string)
    ensures s == value + after && Blank(after) && (value == [] || !IsSpace(value[|value| - 1]))
  {
    if s == [] || !IsSpace(s[|s| - 1]) {
      value, after := s, [];
    } else {
      var a;
      value, a := LastVisible(s[..|s| - 1]);
      after := a + [s[|s| - 1]];
    }
  }

  /** The characters of a word: neither white space nor '='. */
  predicate Solid(w: string) {
    forall k :: 0 <= k < |w| ==> !IsSpace(w[k]) && w[k] != '='
  }

  lemma {:induction false} WordEnd(s: string) returns (word: string, rest: string)
    requires '=' !in s
    ensures s == word + rest && Solid(word) && BetweenText(rest)
    ensures s != [] && !IsSpace(s[0]) ==> word != [] && word[0] == s[0]
  {
    if s == [] || IsSpace(s[0]) {
      word, rest := [], s;
    } else {
      assert s[0] in s && forall c :: c in s[1..] ==> c in s;
      var w;
      w, rest := WordEnd(s[1..]);
      word := [s[0]] + w;
      assert s == [s[0]] + s[1..];
      assert forall k :: 0 < k < |word| ==> word[k] == w[k - 1];
    }
  }

  lemma {:induction false} FirstEquals(s: string) returns (left: string, tail: string)
    ensures s == left + tail && '=' !in left && (tail == [] || tail[0] == '=')
  {
    if s == [] || s[0] == '=' {
      left, tail := [], s;
    } else {
      var l;
      l, tail := FirstEquals(s[1..]);
      left := [s[0]] + l;
    }
  }

  /** Every line has one of the forms. */
  lemma LineForm(line: string) returns (f: Form)
    ensures Proper(f) && LineOf(f) == line
  {
    var blank, rest := FirstVisible(line);
    if rest == [] || rest[0] == '=' || rest[0] == '#' {
      return Ignored(blank, rest);
    }
    var left, tail := FirstEquals(rest);
    var word, between := WordEnd(left);
    assert left[0] == rest[0];
    assert line == blank + (word + between) + tail;
    if tail == [] {
      return NoValue(blank, word, between, tail);
    }
    var before, text := FirstVisible(tail[1..]);
    var value, after := LastVisible(text);
    if value == [] {
      assert tail[1..] == before + after;
      return NoValue(blank, word, between, tail);
    }
    assert text[0] == value[0];
    assert tail == "=" + (before + (value + after));
    return Value(blank, word, between, before, value, after);
  }

  // ---------- which lines are accepted ----------

  /** Only white space stands before the end of the line, its first '=' or a '#'. */
  ghost predicate SaysNothing(line: string) {
    exists k :: 0 <= k <= |line| && Blank(line[..k]) && (k == |line| || line[k] == '=' || line[k] == '#')
  }

  lemma VisibleBefore(line: string, at: nat, k: nat)
    requires at < k <= |line| && !IsSpace(line[at])
    ensures !Blank(line[..k])
  {
    assert line[..k][at] == line[at];
  }

  lemma SaysNothingIff(f: Form)
    requires Proper(f)
    ensures SaysNothing(LineOf(f)) <==> f.Ignored?
  {
    var line, at := LineOf(f), |f.blank|;
    assert line[..at] == f.blank;
    if !f.Ignored? {
      assert line[at] == f.word[0];
      forall k | 0 <= k <= |line|
        ensures Blank(line[..k]) ==> k < |line| && line[k] != '=' && line[k] != '#'
      {
        if k > at {
          VisibleBefore(line, at, k);
        } else if k < at {
          assert line[k] == f.blank[k] && IsSpace(f.blank[k]);
        }
      }
    }
  }

  /** A line is accepted if and only if it says nothing, or assigns to a keyword of the table a
      value that its parser accepts; and a line that says nothing, gives no value or no keyword
      changes nothing. */
  lemma AcceptedIff(t: Table, c: Conf, line: string)
    requires GoodTable(t) && Typed(t, c)
    ensures Apply(t, c, line).1 <==>
              SaysNothing(line) ||
              exists f: Form, i: nat ::
                && f.Value? && Proper(f) && LineOf(f) == line
                && IsKeyword(t, i, f.word) && ParseValue(t[i].kind, c[i], f.value).1
    ensures SaysNothing(line) ==> Apply(t, c, line) == (c, true)
  {
    var f := LineForm(line);
    FormMeans(t, c, f);
    SaysNothingIff(f);
    if f.Value? && Apply(t, c, line).1 {
      var k: nat :| k < |t| && t[k].name == f.word;
      assert IsKeyword(t, k, f.word);
    }
    forall g: Form, i: nat | g.Value? && Proper(g) && LineOf(g) == line && IsKeyword(t, i, g.word)
      ensures Apply(t, c, line).1 == ParseValue(t[i].kind, c[i], g.value).1
    {
      FormMeans(t, c, g);
    }
  }

  // ---------- files ----------

  /** The lines that say something. */
  ghost function Saying(lines: seq<string>): seq<string> {
    if lines == [] then []
    else (if SaysNothing(lines[0]) then [] else [lines[0]]) + Saying(lines[1..])
  }

  /** Comments and empty lines do not matter. */
  lemma {:induction false} CommentsDoNotMatter(t: Table, c: Conf, lines: seq<string>)
    requires GoodTable(t) && Typed(t, c)
    ensures ApplyAll(t, c, lines) == ApplyAll(t, c, Saying(lines))
    decreases |lines|
  {
    if lines != [] {
      var next := Apply(t, c, lines[0]).0;
      AcceptedIff(t, c, lines[0]);
      CommentsDoNotMatter(t, next, lines[1..]);
      if !SaysNothing(lines[0]) {
        assert Saying(lines)[1..] == Saying(lines[1..]);
      } else {
        assert [] + Saying(lines[1..]) == Saying(lines[1..]);
      }
    }
  }

  /** A file is read up to its first line that is refused or fills the buffer: what stands before
      it counts, what stands behind it does not. */
  lemma {:induction false} FileStops(t: Table, c: Conf, a: seq<string>, l: string, b: seq<string>, max: nat)
    requires Typed(t, c) && (forall k :: 0 <= k < |a| ==> |a[k]| != max) && ApplyAll(t, c, a).1
    ensures var now := ApplyAll(t, c, a).0;
            FileLines(t, c, a + [l] + b, max) ==
            if |l| == max then (now, false)
            else if !Apply(t, now, l).1 then (Apply(t, now, l).0, false)
            else FileLines(t, Apply(t, now, l).0, b, max)
    decreases |a|
  {
    var all := a + [l] + b;
    if a == [] {
      assert all[0] == l && all[1..] == b;
    } else {
      assert all[0] == a[0] && all[1..] == a[1..] + [l] + b;
      FileStops(t, Apply(t, c, a[0]).0, a[1..], l, b, max);
    }
  }

  /** A line of a file that says nothing is passed over, wherever it is. */
  lemma CommentInFile(t: Table, c: Conf, a: seq<string>, l: string, b: seq<string>, max: nat)
    requires GoodTable(t) && Typed(t, c) && (forall k :: 0 <= k < |a| ==> |a[k]| != max) && ApplyAll(t, c, a).1
    requires SaysNothing(l) && |l| != max
    ensures FileLines(t, c, a + [l] + b, max) == FileLines(t, ApplyAll(t, c, a).0, b, max)
  {
    FileStops(t, c, a, l, b, max);
    AcceptedIff(t, ApplyAll(t, c, a).0, l);
  }
}
