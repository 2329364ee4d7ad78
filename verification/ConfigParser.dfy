/** parse_line() as the program does it: on one buffer, which it cuts into strings by writing
    NUL characters. */
module ConfigParser {
  import opened Basics
  import opened Text
  import opened Config
  import opened ConfigLists

  /** The buffer holds a C string at index `from`. */
  predicate Holds(b: seq<char>, from: nat, s: string) {
    from + |s| < |b| && b[from..from + |s|] == s && b[from + |s|] == NUL && NUL !in s
  }

  lemma HoldsCString(b: seq<char>, from: nat, s: string)
    requires Holds(b, from, s)
    ensures NUL in b[from..] && CString(b[from..]) == s
  {
    assert b[from..][|s|] == NUL;
    CStringIs(b[from..], s);
  }

  /** Every suffix of a C string is a C string, and so is a prefix once it is cut. */
  lemma HoldsSuffix(b: seq<char>, from: nat, s: string, n: nat)
    requires Holds(b, from, s) && n <= |s|
    ensures Holds(b, from + n, s[n..])
  {
    assert forall c :: c in s[n..] ==> c in s;
  }

  lemma HoldsCut(b: seq<char>, b': seq<char>, from: nat, s: string, n: nat)
    requires Holds(b, from, s) && n <= |s| && b' == b[from + n := NUL]
    ensures Holds(b', from, s[..n]) && (n < |s| ==> Holds(b', from + n + 1, s[n + 1..]))
  {
    assert forall c :: c in s[..n] ==> c in s;
    assert b'[from..from + n] == s[..n];
    if n < |s| {
      HoldsSuffix(b, from, s, n + 1);
      assert b'[from + n + 1..from + |s|] == b[from + n + 1..from + |s|];
    }
  }

  /** The buffers differ at most between the two indices. */
  predicate SameOutside(b: seq<char>, b': seq<char>, from: nat, to: nat) {
    |b| == |b'| && from <= to <= |b| && b[..from] == b'[..from] && b[to..] == b'[to..]
  }

  lemma HoldsOutside(b: seq<char>, b': seq<char>, from: nat, to: nat, k: nat, s: string)
    requires SameOutside(b, b', from, to) && Holds(b, k, s) && (to <= k || k + |s| < from)
    ensures Holds(b', k, s)
  {
    if to <= k {
      SliceOfDrop(b, b', to, k, k + |s| + 1);
    } else {
      SliceOfTake(b, b', from, k, k + |s| + 1);
    }
    SliceInSlice(b, k, |s|);
    SliceInSlice(b', k, |s|);
  }

  lemma SliceOfDrop(b: seq<char>, b': seq<char>, to: nat, m: nat, n: nat)
    requires to <= m <= n <= |b| == |b'| && b[to..] == b'[to..]
    ensures b[m..n] == b'[m..n]
  {
    forall i | m <= i < n ensures b[i] == b'[i] {
      assert b[i] == b[to..][i - to] && b'[i] == b'[to..][i - to];
    }
  }

  lemma SliceOfTake(b: seq<char>, b': seq<char>, from: nat, m: nat, n: nat)
    requires m <= n <= from <= |b| == |b'| && b[..from] == b'[..from]
    ensures b[m..n] == b'[m..n]
  {
    forall i | m <= i < n ensures b[i] == b'[i] {
      assert b[i] == b[..from][i] && b'[i] == b'[..from][i];
    }
  }

  lemma SliceInSlice(b: seq<char>, k: nat, n: nat)
    requires k + n < |b|
    ensures b[k..k + n + 1][..n] == b[k..k + n] && b[k..k + n + 1][n] == b[k + n]
  {
  }

  lemma HoldsChar(b: seq<char>, from: nat, s: string, k: nat)
    requires Holds(b, from, s) && k <= |s|
    ensures k < |s| ==> b[from + k] == s[k] != NUL
    ensures k == |s| ==> b[from + k] == NUL
  {
    if k < |s| {
      assert b[from..from + |s|][k] == s[k] && s[k] in s;
    }
  }

  method StrLenAt(line: array<char>, from: nat, ghost s: string) returns (n: nat)
    requires Holds(line[..], from, s)
    ensures n == |s|
  {
    HoldsCString(line[..], from, s);
    assert line[..][from..] == line[from..];
    n := StrLen(line, from);
  }

  lemma ChompStep(s: string, i: nat)
    requires 0 < i <= |s|
    ensures ChompLen(s[..i]) == if IsSpace(s[i - 1]) then ChompLen(s[..i - 1]) else i
  {
    assert s[..i][..i - 1] == s[..i - 1];
  }

  /** strlen_chomp(), on the string at `from`. */
  method StrLenChomp(line: array<char>, from: nat, ghost s: string) returns (i: nat)
    requires Holds(line[..], from, s)
    ensures i == ChompLen(s)
  {
    i := StrLenAt(line, from, s);
    assert s[..|s|] == s;
    while i > 0
      invariant i <= |s| && ChompLen(s) == ChompLen(s[..i])
    {
      HoldsChar(line[..], from, s, i - 1);
      ChompStep(s, i);
      if !IsSpace(line[from + i - 1]) {
        break;
      }
      i := i - 1;
    }
  }

  lemma SpaceStep(s: string, k: nat)
    requires k <= |s|
    ensures SpaceLen(s[k..]) == if k < |s| && IsSpace(s[k]) then 1 + SpaceLen(s[k + 1..]) else 0
  {
    assert k < |s| ==> s[k..][1..] == s[k + 1..];
  }

  method SpaceEnd(line: array<char>, from: nat, ghost s: string) returns (i: nat)
    requires Holds(line[..], from, s)
    ensures i == from + SpaceLen(s)
  {
    i := from;
    assert s[0..] == s;
    HoldsChar(line[..], from, s, 0);
    while line[i] != NUL && IsSpace(line[i])
      invariant from <= i <= from + |s| && SpaceLen(s) == i - from + SpaceLen(s[i - from..])
      invariant i < from + |s| ==> line[i] == s[i - from] != NUL
      invariant i == from + |s| ==> line[i] == NUL
      decreases from + |s| - i
    {
      SpaceStep(s, i - from);
      HoldsChar(line[..], from, s, i + 1 - from);
      i := i + 1;
    }
    SpaceStep(s, i - from);
  }

  /** Skipping the characters of `delim`. */
  method SkipSpace(line: array<char>, from: nat, ghost s: string) returns (i: nat)
    requires Holds(line[..], from, s)
    ensures i == from + SpaceLen(s) && Holds(line[..], i, Strip(s))
  {
    i := SpaceEnd(line, from, s);
    HoldsSuffix(line[..], from, s, SpaceLen(s));
  }

  lemma WordStep(s: string, k: nat)
    requires k <= |s|
    ensures WordLen(s[k..]) == if k < |s| && !IsSpace(s[k]) then 1 + WordLen(s[k + 1..]) else 0
  {
    assert k < |s| ==> s[k..][1..] == s[k + 1..];
  }

  /** The end of the word at `from`. */
  method SkipWord(line: array<char>, from: nat, ghost s: string) returns (i: nat)
    requires Holds(line[..], from, s)
    ensures i == from + WordLen(s)
  {
    i := from;
    assert s[0..] == s;
    HoldsChar(line[..], from, s, 0);
    while line[i] != NUL && !IsSpace(line[i])
      invariant from <= i <= from + |s| && WordLen(s) == i - from + WordLen(s[i - from..])
      invariant i < from + |s| ==> line[i] == s[i - from] != NUL
      invariant i == from + |s| ==> line[i] == NUL
      decreases from + |s| - i
    {
      WordStep(s, i - from);
      HoldsChar(line[..], from, s, i + 1 - from);
      i := i + 1;
    }
    WordStep(s, i - from);
  }

  /** What strtok() remembers after a word: the text after the delimiter that ended it. */
  function Remembered(s: string): string {
    if AfterWord(s) == [] then [] else AfterWord(s)[1..]
  }

  lemma RememberedAtEnd(s: string)
    ensures AtEnd(Remembered(s)) <==> AtEnd(AfterWord(s))
  {
    var a := AfterWord(s);
    if a != [] {
      SpaceStep(a, 0);
      assert a[0..] == a;
      assert Strip(a) == Strip(a[1..]) by {
        assert a[1 + SpaceLen(a[1..])..] == a[1..][SpaceLen(a[1..])..];
      }
    }
  }

  /** The buffer once the string at `from` was cut after n characters. */
  function Cut(b: seq<char>, at: nat): seq<char>
    requires at < |b|
  {
    b[at := NUL]
  }

  lemma CutIsLocal(b: seq<char>, from: nat, s: string, n: nat)
    requires Holds(b, from, s) && n <= |s|
    ensures SameOutside(b, Cut(b, from + n), from, from + |s|)
    ensures Holds(Cut(b, from + n), from, s[..n])
    ensures n < |s| ==> Holds(Cut(b, from + n), from + n + 1, s[n + 1..])
    ensures n == |s| ==> Cut(b, from + n) == b && Holds(b, from + n, [])
  {
    HoldsCut(b, Cut(b, from + n), from, s, n);
    HoldsChar(b, from, s, n);
    if n == |s| {
      assert Cut(b, from + n) == b;
    } else {
      assert Cut(b, from + n)[..from] == b[..from] && Cut(b, from + n)[from + |s|..] == b[from + |s|..];
    }
  }

  lemma SameOutsideWider(b: seq<char>, b': seq<char>, from: nat, to: nat, wider: nat)
    requires SameOutside(b, b', from, to) && wider <= from
    ensures SameOutside(b, b', wider, to)
  {
    assert b[..wider] == b[..from][..wider] && b'[..wider] == b'[..from][..wider];
  }

  /** Cuts the word at `tok` off the text that follows it, in a string from `from` to `to`. */
  method CutWord(line: array<char>, tok: nat, ghost w: string, ghost n: nat, ghost from: nat,
        ghost to: nat) returns (next: nat)
    requires Holds(line[..], tok, w) && n == WordLen(w) && from <= tok && to == tok + |w|
    modifies line
    ensures SameOutside(old(line[..]), line[..], from, to)
    ensures Holds(line[..], tok, w[..n])
    ensures Holds(line[..], next, if n == |w| then [] else w[n + 1..])
  {
    var end := SkipWord(line, tok, w);
    ghost var was := line[..];
    CutIsLocal(was, tok, w, n);
    HoldsChar(was, tok, w, n);
    SameOutsideWider(was, Cut(was, end), tok, to, from);
    next := end;
    if line[end] != NUL {
      line[end] := NUL;
      next := end + 1;
      assert line[..] == Cut(was, end);
    }
  }

  lemma WordParts(s: string, w: string, n: nat)
    requires w == Strip(s) && n == WordLen(w)
    ensures FirstWord(s) == w[..n] && (FirstWord(s) == [] <==> w == [])
    ensures Remembered(s) == if n == |w| then [] else w[n + 1..]
    ensures |w| + SpaceLen(s) == |s|
  {
    assert w != [] ==> !IsSpace(w[0]);
    assert n < |w| ==> w[n..][1..] == w[n + 1..];
  }

  /** strtok(): the word at `tok` (or -1) has become a string of its own, and the next call
      goes on at `next`. Nothing outside the string is written. */
  method StrTok(line: array<char>, from: nat, ghost s: string) returns (tok: int, next: nat)
    requires Holds(line[..], from, s)
    modifies line
    ensures SameOutside(old(line[..]), line[..], from, from + |s|)
    ensures if FirstWord(s) == [] then tok == -1 else tok == from + SpaceLen(s)
    ensures tok >= 0 ==> Holds(line[..], tok, FirstWord(s)) && Holds(line[..], next, Remembered(s))
  {
    tok := SkipSpace(line, from, s);
    ghost var w := Strip(s);
    ghost var n := WordLen(w);
    WordParts(s, w, n);
    HoldsChar(line[..], tok, w, 0);
    if line[tok] == NUL {
      return -1, tok;
    }
    next := CutWord(line, tok, w, n, from, from + |s|);
  }

  /** strcmp() and friends read the string at `from`. */
  method StringAt(line: array<char>, from: nat, ghost s: string) returns (t: string)
    requires Holds(line[..], from, s)
    ensures t == s
  {
    var n := StrLenAt(line, from, s);
    t := line[from..from + n];
  }

  // ---------- the parsers ----------

  /** parse_endline() */
  method ParseEndline(line: array<char>, next: nat, ghost s: string) returns (ok: bool)
    requires Holds(line[..], next, Remembered(s))
    modifies line
    ensures ok == AtEnd(AfterWord(s))
  {
    RememberedAtEnd(s);
    var tok, _ := StrTok(line, next, Remembered(s));
    ok := tok < 0;
  }

  lemma TrimmedHasWord(v: string)
    requires Trimmed(v)
    ensures SpaceLen(v) == 0 && Strip(v) == v && FirstWord(v) != []
  {
  }

  lemma {:induction false} FindNameFrom(names: seq<EnumName>, word: string, i: nat)
    requires i <= |names| && forall k :: 0 <= k < i ==> names[k].name != word
    ensures FindName(names, word) == FindName(names[i..], word)
    ensures i < |names| && names[i].name == word ==> FindName(names, word) == Some(names[i].value)
    ensures i == |names| ==> FindName(names, word) == None
  {
    if i > 0 {
      FindNameFrom(names[1..], word, i - 1);
      assert names[1..][i - 1..] == names[i..];
    } else {
      assert names[0..] == names;
    }
  }

  /** parse_enum() */
  method ParseEnum(names: seq<EnumName>, was: OptionValue, line: array<char>, at: nat, ghost v: string)
    returns (r: OptionValue, ok: bool)
    requires was.Num? && Trimmed(v) && Holds(line[..], at, v)
    modifies line
    ensures (r, ok) == ParseValue(Enum(names), was, v)
  {
    TrimmedHasWord(v);
    var tok, next := StrTok(line, at, v);
    var word := StringAt(line, tok, FirstWord(v));
    var i := 0;
    while i < |names|
      invariant i <= |names| && forall k :: 0 <= k < i ==> names[k].name != word
    {
      if names[i].name == word {
        FindNameFrom(names, word, i);
        ok := ParseEndline(line, next, v);
        return Num(names[i].value), ok;
      }
      i := i + 1;
    }
    FindNameFrom(names, word, i);
    return was, false;
  }

  /** parse_int() */
  method ParseInt(was: OptionValue, line: array<char>, at: nat, ghost v: string) returns (r: OptionValue, ok: bool)
    requires was.Num? && Trimmed(v) && Holds(line[..], at, v)
    modifies line
    ensures (r, ok) == ParseValue(Integer, was, v)
  {
    TrimmedHasWord(v);
    var tok, next := StrTok(line, at, v);
    var word := StringAt(line, tok, FirstWord(v));
    var (n, end) := Strtol(word);
    HoldsChar(line[..], tok, word, end);
    if line[tok + end] != NUL {
      return was, false;
    }
    ok := ParseEndline(line, next, v);
    r := Num(ToInt(n));
  }

  /** parse_string() */
  method ParseString(line: array<char>, at: nat, ghost v: string) returns (r: OptionValue, ok: bool)
    requires Holds(line[..], at, v)
    ensures (r, ok) == ParseValue(Single, Str(None), v)
  {
    var text := StringAt(line, at, v);
    if text == "~" {
      return Str(None), true;
    }
    var len := StrLenChomp(line, at, v);
    r, ok := Str(Some(text[..len])), true;
  }

  /** Values that lists hold, with one more or none. */
  lemma OneMoreText(l: seq<string>, s: string)
    ensures TextItems(l + [s]) == TextItems(l) + [TextItem(s)] && TextItems([]) == []
  {
  }

  lemma OneMoreMap(m: seq<Mapping>, x: Mapping)
    ensures MapItems(m + [x]) == MapItems(m) + [MapItem(x)]
  {
  }

  /** parse_string_multi(): appends a node to the list of option i, or frees them all. */
  method ParseStringMulti(lists: ListStore, i: nat, line: array<char>, at: nat, ghost was: OptionValue, ghost v: string)
    requires lists.Valid() && i < |lists.heads| && Holds(line[..], at, v)
    requires was.List? && Items(lists.chains[i]) == TextItems(was.l)
    modifies lists, lists.live
    ensures lists.Valid() && |lists.heads| == old(|lists.heads|) && fresh(lists.live - old(lists.live))
    ensures forall j :: 0 <= j < |lists.heads| && j != i ==> lists.chains[j] == old(lists.chains[j])
    ensures var (r, ok) := ParseValue(Multi, was, v);
            ok && Items(lists.chains[i]) == TextItems(r.l)
  {
    var text := StringAt(line, at, v);
    var len := StrLenChomp(line, at, v);
    OneMoreText(was.l, Chomp(v));
    if text == "~" {
      lists.Clear(i);
    } else {
      lists.Append(i, TextItem(text[..len]));
    }
  }

  lemma MappingParsed(was: OptionValue, v: string)
    requires was.Maps?
    ensures var (n, end) := Strtol(v);
            ParseValue(MapMulti, was, v) ==
            if end < |v| && v[end] == ':' then (Maps(was.m + [Mapping(ToUnsigned(n), Chomp(v[end + 1..]))]), true)
            else (was, false)
  {
  }

  /** parse_mapping_multi(): appends a node to the list of option i, if the value is a mapping. */
  method ParseMappingMulti(lists: ListStore, i: nat, line: array<char>, at: nat, ghost was: OptionValue,
                            ghost v: string)
    returns (ok: bool)
    requires lists.Valid() && i < |lists.heads| && Holds(line[..], at, v)
    requires was.Maps? && Items(lists.chains[i]) == MapItems(was.m)
    modifies lists, lists.live
    ensures lists.Valid() && |lists.heads| == old(|lists.heads|) && fresh(lists.live - old(lists.live))
    ensures forall j :: 0 <= j < |lists.heads| && j != i ==> lists.chains[j] == old(lists.chains[j])
    ensures ok == ParseValue(MapMulti, was, v).1
    ensures Items(lists.chains[i]) == MapItems(ParseValue(MapMulti, was, v).0.m)
  {
    MappingParsed(was, v);
    var text := StringAt(line, at, v);
    var o := Strtol(text);
    HoldsChar(line[..], at, v, o.1);
    if line[at + o.1] != ':' {
      return false;
    }
    var mapping := MappingAt(line, at + o.1 + 1, o, at, v);
    OneMoreMap(was.m, mapping);
    lists.Append(i, MapItem(mapping));
    ok := true;
  }

  method MappingAt(line: array<char>, from: nat, o: (int, nat), ghost at: nat, ghost v: string) returns (m: Mapping)
    requires Holds(line[..], at, v) && o.1 < |v| && from == at + o.1 + 1
    ensures m == Mapping(ToUnsigned(o.0), Chomp(v[o.1 + 1..]))
  {
    ghost var file := v[o.1 + 1..];
    HoldsSuffix(line[..], at, v, o.1 + 1);
    var len := StrLenChomp(line, from, file);
    var rest := StringAt(line, from, file);
    m := Mapping(ToUnsigned(o.0), rest[..len]);
  }

  // ---------- parse_line() ----------

  lemma EqualsStep(s: string, k: nat)
    requires k < |s|
    ensures EqualsAt(s[k..]) == if s[k] == '=' then 0 else 1 + EqualsAt(s[k + 1..])
  {
    assert s[k..][1..] == s[k + 1..];
  }

  /** strchr(line, '='), as an index; the length stands for NULL. */
  method FindEquals(line: array<char>, ghost s: string) returns (k: nat)
    requires Holds(line[..], 0, s)
    ensures k == EqualsAt(s)
  {
    k := 0;
    assert s[0..] == s;
    HoldsChar(line[..], 0, s, 0);
    while line[k] != NUL && line[k] != '='
      invariant k <= |s| && EqualsAt(s) == k + EqualsAt(s[k..])
      invariant k < |s| ==> line[k] == s[k] != NUL
      invariant k == |s| ==> line[k] == NUL
      decreases |s| - k
    {
      EqualsStep(s, k);
      HoldsChar(line[..], 0, s, k + 1);
      k := k + 1;
    }
    if k < |s| {
      EqualsStep(s, k);
    }
  }

  /** Cuts the line at its first '=' and finds the value behind it. */
  method CutAtEquals(line: array<char>, ghost s: string) returns (value: int)
    requires Holds(line[..], 0, s)
    modifies line
    ensures value < 0 <==> EqualsAt(s) == |s|
    ensures Holds(line[..], 0, s[..EqualsAt(s)])
    ensures value >= 0 ==> value > EqualsAt(s) && Holds(line[..], value, Strip(s[EqualsAt(s) + 1..]))
  {
    var k := FindEquals(line, s);
    HoldsChar(line[..], 0, s, k);
    if line[k] == NUL {
      assert s[..k] == s;
      return -1;
    }
    CutIsLocal(line[..], 0, s, k);
    ghost var was := line[..];
    line[k] := NUL;
    assert line[..] == Cut(was, k);
    value := SkipSpace(line, k + 1, s[k + 1..]);
  }

  /** value[strlen_chomp(value)] = 0 */
  method ChompInPlace(line: array<char>, at: nat, ghost v: string)
    requires Holds(line[..], at, v)
    modifies line
    ensures Holds(line[..], at, Chomp(v))
  {
    var n := StrLenChomp(line, at, v);
    CutIsLocal(line[..], at, v, n);
    ghost var was := line[..];
    line[at + n] := NUL;
    assert line[..] == Cut(was, at + n);
  }

  /** The parser of a keyword whose value is kept in a variable. */
  method ParseVariable(kind: Kind, was: OptionValue, line: array<char>, at: nat, ghost v: string)
    returns (r: OptionValue, ok: bool)
    requires HasKind(was, kind) && kind != Multi && kind != MapMulti && Trimmed(v) && Holds(line[..], at, v)
    modifies line
    ensures (r, ok) == ParseValue(kind, was, v)
  {
    match kind {
      case Enum(names) => r, ok := ParseEnum(names, was, line, at, v);
      case Integer => r, ok := ParseInt(was, line, at, v);
      case Single => r, ok := ParseString(line, at, v);
    }
  }

  lemma {:induction false} FindFrom(t: Table, name: string, i: nat)
    requires i <= |t| && forall k :: 0 <= k < i ==> t[k].name != name
    ensures i < |t| && t[i].name == name ==> Find(t, name) == i
    ensures i == |t| ==> Find(t, name) == |t|
  {
    if i > 0 {
      FindFrom(t[1..], name, i - 1);
    }
  }

  /** parse_line() up to the keyword loop: what the line says, and where its value is. */
  method SplitLine(line: array<char>, ghost s: string) returns (rc: int, keyword: string, at: nat)
    requires Holds(line[..], 0, s)
    modifies line
    ensures rc == 0 ==> Split(s) == Nothing
    ensures rc == 1 ==> Split(s).MissingValue?
    ensures rc != 0 && rc != 1 ==>
              Split(s).Assign? && keyword == Split(s).keyword && Holds(line[..], at, Split(s).value)
  {
    var value := CutAtEquals(line, s);
    ghost var left, was := s[..EqualsAt(s)], line[..];
    var tok, _ := StrTok(line, 0, left);
    if tok < 0 {
      return 0, "", 0;
    }
    keyword := StringAt(line, tok, FirstWord(left));
    if keyword[0] == '#' {
      return 0, "", 0;
    }
    if value < 0 {
      return 1, keyword, 0;
    }
    ghost var v := Strip(s[EqualsAt(s) + 1..]);
    HoldsOutside(was, line[..], 0, |left|, value, v);
    HoldsChar(line[..], value, v, 0);
    if line[value] == NUL {
      return 1, keyword, 0;
    }
    ChompInPlace(line, value, v);
    return 2, keyword, value;
  }

  /** The configuration, and how often each keyword was seen. `conf` is what the variables and
      the lists stand for. */
  class ConfigState {
    const table: Table
    const lists: ListStore
    var variables: seq<OptionValue>
    var seen: seq<nat>
    ghost var conf: Conf

    constructor (table: Table, conf: Conf)
      requires Typed(table, conf) && forall i :: 0 <= i < |conf| ==> Fresh(conf[i])
      ensures this.table == table && this.conf == conf && Valid() && fresh(lists) && lists.live == {}
      ensures forall i :: 0 <= i < |seen| ==> seen[i] == 0
    {
      this.table, this.conf, this.variables := table, conf, conf;
      seen := seq(|table|, _ => 0);
      lists := new ListStore(|table|);
    }

    /** The lists are acyclic and disjoint, and each option has its value. */
    ghost predicate Valid()
      reads this, lists, lists.live
    {
      && Typed(table, conf) && |table| == |seen| == |variables| == |lists.heads| && lists.Valid()
      && forall i :: 0 <= i < |table| ==> Represents(conf[i], variables[i], Items(lists.chains[i]))
    }

    /** The parser of an option whose value is kept in a variable. */
    method ParseIntoVariable(i: nat, line: array<char>, at: nat, ghost v: string) returns (ok: bool)
      requires Valid() && i < |table| && Trimmed(v) && Holds(line[..], at, v)
      requires table[i].kind != Multi && table[i].kind != MapMulti
      modifies this`variables, this`conf, line
      ensures Valid()
      ensures (conf[i], ok) == ParseValue(table[i].kind, old(conf)[i], v)
      ensures conf == old(conf)[i := conf[i]]
    {
      var r;
      r, ok := ParseVariable(table[i].kind, variables[i], line, at, v);
      variables, conf := variables[i := r], conf[i := r];
    }

    method ParseIntoTexts(i: nat, line: array<char>, at: nat, ghost v: string)
      requires Valid() && i < |table| && Holds(line[..], at, v) && table[i].kind == Multi
      modifies this`conf, lists, lists.live
      ensures Valid() && fresh(lists.live - old(lists.live))
      ensures (conf[i], true) == ParseValue(table[i].kind, old(conf)[i], v)
      ensures conf == old(conf)[i := conf[i]]
    {
      ghost var was := conf[i];
      ParseStringMulti(lists, i, line, at, was, v);
      conf := conf[i := ParseValue(Multi, was, v).0];
    }

    method ParseIntoMappings(i: nat, line: array<char>, at: nat, ghost v: string) returns (ok: bool)
      requires Valid() && i < |table| && Holds(line[..], at, v) && table[i].kind == MapMulti
      modifies this`conf, lists, lists.live
      ensures Valid() && fresh(lists.live - old(lists.live))
      ensures (conf[i], ok) == ParseValue(table[i].kind, old(conf)[i], v)
      ensures conf == old(conf)[i := conf[i]]
    {
      ghost var was := conf[i];
      ok := ParseMappingMulti(lists, i, line, at, was, v);
      conf := conf[i := ParseValue(MapMulti, was, v).0];
    }

    /** The parser of option i, chosen by its kind. */
    method ParseStored(i: nat, line: array<char>, at: nat, ghost v: string) returns (ok: bool)
      requires Valid() && i < |table| && Trimmed(v) && Holds(line[..], at, v)
      modifies this`variables, this`conf, line, lists, lists.live
      ensures Valid() && fresh(lists.live - old(lists.live))
      ensures (conf[i], ok) == ParseValue(table[i].kind, old(conf)[i], v)
      ensures conf == old(conf)[i := conf[i]]
    {
      if table[i].kind == Multi {
        ParseIntoTexts(i, line, at, v);
        ok := true;
      } else if table[i].kind == MapMulti {
        ok := ParseIntoMappings(i, line, at, v);
      } else {
        ok := ParseIntoVariable(i, line, at, v);
      }
    }

    /** The keyword loop of parse_line(). */
    method FindKeyword(keyword: string) returns (i: nat)
      ensures i == Find(table, keyword)
    {
      i := 0;
      while i < |table|
        invariant i <= |table| && forall k :: 0 <= k < i ==> table[k].name != keyword
      {
        FindFrom(table, keyword, i);
        if table[i].name == keyword {
          return;
        }
        i := i + 1;
      }
      FindFrom(table, keyword, i);
    }

    /** What parse_line() does with a keyword and its value. */
    method Assign(keyword: string, line: array<char>, at: nat, ghost v: string) returns (rc: int)
      requires Valid() && Trimmed(v) && Holds(line[..], at, v)
      modifies this, line, lists, lists.live
      ensures Valid() && fresh(lists.live - old(lists.live))
      ensures var i := Find(table, keyword);
              if i == |table| then rc == 1 && conf == old(conf) && seen == old(seen)
              else
                && (conf[i], rc == 0) == ParseValue(table[i].kind, old(conf)[i], v)
                && conf == old(conf)[i := conf[i]] && seen == old(seen)[i := old(seen)[i] + 1]
    {
      var i := FindKeyword(keyword);
      if i == |table| {
        return 1;
      }
      seen := seen[i := seen[i] + 1];
      var ok := ParseStored(i, line, at, v);
      rc := if ok then 0 else -1;
    }

    /** parse_line(): does to the configuration what Apply says, for every C string, and keeps
        the lists apart. */
    method ParseLine(line: array<char>) returns (rc: int)
      requires Valid() && NUL in line[..]
      modifies this, line, lists, lists.live
      ensures Valid() && fresh(lists.live - old(lists.live))
      ensures (conf, rc == 0) == Apply(table, old(conf), CString(old(line[..])))
    {
      ghost var s, before := CString(line[..]), conf;
      assert line[..][0..|s|] == s;
      var keyword, at;
      rc, keyword, at := SplitLine(line, s);
      if rc != 0 && rc != 1 {
        rc := Assign(keyword, line, at, Split(s).value);
      }
    }
  }
}
