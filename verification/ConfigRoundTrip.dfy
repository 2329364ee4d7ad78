/** Feeding the lines of log_conf() to parse_line() rebuilds the configuration. */
module ConfigRoundTrip {
  import opened Basics
  import opened Text
  import opened Config
  import opened ConfigPrinting

  // ---------- numbers ----------

  lemma {:induction false} DigitRunIs(s: string, n: nat, b: nat)
    requires n <= |s| && AllDigits(s[..n], b) && (n < |s| ==> !IsDigit(s[n], b))
    ensures DigitRun(s, b) == n
  {
    if n > 0 {
      assert s[0] == s[..n][0] && s[1..][..n - 1] == s[..n][1..];
      DigitRunIs(s[1..], n - 1, b);
    }
  }

  lemma {:induction false} LeadingDigit(n: nat, b: nat)
    requires 2 <= b <= 16 && n > 0
    ensures Digits(n, b)[0] != '0'
  {
    if n < b {
      OneDigit(n, b);
    } else {
      var q, r := Divide(n, b);
      LeadingDigit(q, b);
      FirstOfLonger(n, b, q);
    }
  }

  lemma OneDigit(n: nat, b: nat)
    requires 0 < n < b <= 16
    ensures Digits(n, b) == [DigitChar(n)] && DigitChar(n) != '0'
  {
  }

  lemma FirstOfLonger(n: nat, b: nat, q: nat)
    requires 2 <= b <= 16 && n >= b && q == n / b
    ensures Digits(n, b)[0] == Digits(q, b)[0]
  {
  }

  lemma DecimalPrefix(d: string, s: string, rest: string)
    requires d != [] && AllDigits(d, 10) && d[0] != '0' && s == d + rest
    requires rest == [] || !IsDigit(rest[0], 10)
    ensures BaseZero(s) == (Value(d, 10), |d|)
  {
    assert s[..|d|] == d;
    DigitRunIs(s, |d|, 10);
    assert s[0] == d[0];
  }

  lemma ZeroPrefix(s: string, rest: string)
    requires s == "0" + rest && (rest == [] || (!IsDigit(rest[0], 10) && rest[0] != 'x' && rest[0] != 'X'))
    ensures BaseZero(s) == (0, 1)
  {
    assert s[..1] == "0" && s[0] == '0' && (|s| > 1 ==> s[1] == rest[0]);
    DigitRunIs(s, 1, 8);
    ValueOfOne('0', 8);
  }

  /** strtol() reads back what "%d" prints, up to a character that is no digit. */
  lemma BaseZeroOfDecimal(n: nat, rest: string)
    requires rest == [] || !IsDigit(rest[0], 10)
    requires n == 0 ==> rest == [] || (rest[0] != 'x' && rest[0] != 'X')
    ensures BaseZero(Digits(n, 10) + rest) == (n, |Digits(n, 10)|)
  {
    var d := Digits(n, 10);
    ValueOfDigits(n, 10);
    if n == 0 {
      assert d == "0";
      ZeroPrefix(d + rest, rest);
    } else {
      LeadingDigit(n, 10);
      DecimalPrefix(d, d + rest, rest);
    }
  }

  lemma NoSpaceAtFront(s: string)
    requires s != [] && !IsSpace(s[0])
    ensures SpaceLen(s) == 0 && Strip(s) == s
  {
  }

  lemma StrtolOfDecimal(n: int)
    requires -0x8000_0000 <= n < 0x8000_0000
    ensures Strtol(Decimal(n)) == (n, |Decimal(n)|)
  {
    var s := Decimal(n);
    var u := if n < 0 then -n else n;
    BaseZeroOfDecimal(u, []);
    var d := Digits(u, 10);
    assert d + [] == d && IsDigit(d[0], 10);
    NoSpaceAtFront(s);
    assert s[0..] == s && (n < 0 ==> s[1..] == d);
  }

  lemma HexPrefix(s: string, t: string)
    requires s == "0x" + t && t != [] && IsDigit(t[0], 16)
    ensures BaseZero(s) == (Value(t[..DigitRun(t, 16)], 16), 2 + DigitRun(t, 16))
  {
    assert s[2..] == t;
  }

  /** A hexadecimal number behind its prefix, up to a character that is no digit. */
  lemma BaseZeroOfHex(d: string, rest: string)
    requires d != [] && AllDigits(d, 16) && (rest == [] || !IsDigit(rest[0], 16))
    ensures BaseZero("0x" + d + rest) == (Value(d, 16), 2 + |d|)
  {
    var s, t := "0x" + d + rest, d + rest;
    assert t[0] == d[0] && IsDigit(d[0], 16) && t[..|d|] == d;
    DigitRunIs(t, |d|, 16);
    HexPrefix(s, t);
  }

  /** What strtol() does with text that begins with a digit. */
  lemma StrtolOfUnsigned(s: string)
    requires s != [] && IsDigit(s[0], 10) && BaseZero(s).1 > 0
    ensures Strtol(s) == (Clamp(BaseZero(s).0), BaseZero(s).1)
  {
    NoSpaceAtFront(s);
    assert s[0..] == s;
  }

  lemma BaseZeroOfAltHex(n: nat, rest: string)
    requires rest != [] && rest[0] == ':'
    ensures BaseZero(AltHex(n) + rest) == (n, |AltHex(n)|)
  {
    if n == 0 {
      assert Digits(0, 10) == "0";
      BaseZeroOfDecimal(0, rest);
    } else {
      ValueOfDigits(n, 16);
      BaseZeroOfHex(Digits(n, 16), rest);
    }
  }

  /** strtoll() reads back what "%#x" prints, except that it stops at 2^63 - 1. */
  lemma StrtolOfAltHex(n: nat, rest: string)
    requires rest != [] && rest[0] == ':'
    ensures Strtol(AltHex(n) + rest) == (Clamp(n), |AltHex(n)|)
  {
    assert (AltHex(n) + rest)[0] == '0';
    BaseZeroOfAltHex(n, rest);
    StrtolOfUnsigned(AltHex(n) + rest);
  }

  // ---------- one line ----------

  lemma {:induction false} EqualsAtIs(a: string, b: string)
    requires forall k :: 0 <= k < |a| ==> a[k] != '='
    ensures EqualsAt(a + "=" + b) == |a|
  {
    var s := a + "=" + b;
    if a == [] {
      assert s[0] == '=';
    } else {
      assert s[0] == a[0] && s[1..] == a[1..] + "=" + b;
      EqualsAtIs(a[1..], b);
    }
  }

  lemma {:induction false} WordLenOf(w: string, rest: string)
    requires forall k :: 0 <= k < |w| ==> !IsSpace(w[k])
    requires rest == [] || IsSpace(rest[0])
    ensures WordLen(w + rest) == |w|
  {
    if w == [] {
      assert w + rest == rest;
    } else {
      assert (w + rest)[0] == w[0] && (w + rest)[1..] == w[1..] + rest;
      WordLenOf(w[1..], rest);
    }
  }

  lemma FirstWordOf(w: string, rest: string)
    requires w != [] && forall k :: 0 <= k < |w| ==> !IsSpace(w[k])
    requires rest == [] || IsSpace(rest[0])
    ensures FirstWord(w + rest) == w && AfterWord(w + rest) == rest
  {
    assert (w + rest)[0] == w[0];
    NoSpaceAtFront(w + rest);
    WordLenOf(w, rest);
  }

  lemma StripOneSpace(text: string)
    requires text != [] && !IsSpace(text[0])
    ensures Strip(" " + text) == text
  {
    var right := " " + text;
    assert right[1..] == text;
    NoSpaceAtFront(text);
    assert SpaceLen(right) == 1 + SpaceLen(right[1..]);
  }

  lemma SplitParts(left: string, right: string, keyword: string, text: string)
    requires forall k :: 0 <= k < |left| ==> left[k] != '='
    requires FirstWord(left) == keyword && keyword != [] && keyword[0] != '#'
    requires Strip(right) == text && text != []
    ensures Split(left + "=" + right) == Assign(keyword, Chomp(text))
  {
    var line := left + "=" + right;
    EqualsAtIs(left, right);
    assert line[..|left|] == left && line[|left| + 1..] == right;
  }

  /** The line that log_conf() prints is split into the keyword and the value again. */
  lemma SplitOfLine(keyword: string, text: string)
    requires PlainWord(keyword) && keyword[0] != '#' && Trimmed(text)
    ensures Split(Line(keyword, text)) == Assign(keyword, text)
  {
    var left, right := keyword + " ", " " + text;
    assert Line(keyword, text) == left + "=" + right;
    FirstWordOf(keyword, " ");
    StripOneSpace(text);
    ChompOfTrimmed(text);
    SplitParts(left, right, keyword, text);
  }

  /** A single word has nothing behind it. */
  lemma OneWord(w: string)
    requires w != [] && forall k :: 0 <= k < |w| ==> !IsSpace(w[k])
    ensures FirstWord(w) == w && AtEnd(AfterWord(w)) && Trimmed(w)
  {
    assert w + [] == w;
    FirstWordOf(w, []);
  }

  lemma DecimalIsWord(n: int)
    ensures forall k :: 0 <= k < |Decimal(n)| ==> !IsSpace(Decimal(n)[k])
  {
    var s, d := Decimal(n), Digits(if n < 0 then -n else n, 10);
    forall k | 0 <= k < |s| ensures !IsSpace(s[k]) {
      assert n < 0 && k > 0 ==> s[k] == d[k - 1] && IsDigit(d[k - 1], 10);
      assert n >= 0 ==> IsDigit(d[k], 10);
    }
  }

  // ---------- one option ----------

  lemma {:induction false} FindIs(t: Table, i: nat)
    requires i < |t| && forall k :: 0 <= k < i ==> t[k].name != t[i].name
    ensures Find(t, t[i].name) == i
  {
    if i > 0 {
      assert t[1..][i - 1] == t[i];
      FindIs(t[1..], i - 1);
    }
  }

  lemma ApplyLine(t: Table, c: Conf, i: nat, text: string)
    requires GoodTable(t) && Typed(t, c) && i < |t| && Trimmed(text)
    ensures var (v, ok) := ParseValue(t[i].kind, c[i], text);
            Apply(t, c, Line(t[i].name, text)) == (c[i := v], ok)
  {
    SplitOfLine(t[i].name, text);
    FindIs(t, i);
  }

  /** The parser of one option on several values, until one is refused. */
  function ParseAll(kind: Kind, was: OptionValue, texts: seq<string>): (r: (OptionValue, bool))
    requires HasKind(was, kind)
    ensures HasKind(r.0, kind)
    decreases |texts|
  {
    if texts == [] then (was, true)
    else
      var (v, ok) := ParseValue(kind, was, texts[0]);
      if ok then ParseAll(kind, v, texts[1..]) else (v, false)
  }

  lemma {:induction false} ApplyLines(t: Table, c: Conf, i: nat, texts: seq<string>)
    requires GoodTable(t) && Typed(t, c) && i < |t| && forall k :: 0 <= k < |texts| ==> Trimmed(texts[k])
    ensures var (v, ok) := ParseAll(t[i].kind, c[i], texts);
            ApplyAll(t, c, Lines(t[i].name, texts)) == (c[i := v], ok)
    decreases |texts|
  {
    if texts == [] {
      assert c[i := c[i]] == c;
    } else {
      var lines := Lines(t[i].name, texts);
      ApplyLine(t, c, i, texts[0]);
      assert lines[1..] == Lines(t[i].name, texts[1..]);
      var (v, ok) := ParseValue(t[i].kind, c[i], texts[0]);
      if ok {
        ApplyLines(t, c[i := v], i, texts[1..]);
        assert c[i := v][i := ParseAll(t[i].kind, v, texts[1..]).0] == c[i := ParseAll(t[i].kind, v, texts[1..]).0];
      }
    }
  }

  /** What comes back: addresses from 2^63 on are cut off. */
  function ClampAll(m: seq<Mapping>): seq<Mapping> {
    if m == [] then [] else [Mapping(Clamp(m[0].addr), m[0].file)] + ClampAll(m[1..])
  }

  function Reread(v: OptionValue): OptionValue {
    if v.Maps? then Maps(ClampAll(v.m)) else v
  }

  lemma {:induction false} NameOfIs(names: seq<EnumName>, value: int) returns (i: nat)
    requires exists k :: 0 <= k < |names| && names[k].value == value
    ensures i < |names| && NameOf(names, value) == names[i].name && names[i].value == value
  {
    if names[0].value == value {
      i := 0;
    } else {
      i := NameOfIs(names[1..], value);
      i := i + 1;
    }
  }

  lemma {:induction false} FindNameOf(names: seq<EnumName>, i: nat)
    requires i < |names| && forall k :: 0 <= k < i ==> names[k].name != names[i].name
    ensures FindName(names, names[i].name) == Some(names[i].value)
  {
    if i > 0 {
      assert names[1..][i - 1] == names[i];
      FindNameOf(names[1..], i - 1);
    }
  }

  lemma MappingTextTrimmed(m: Mapping)
    requires StoredMapping(m)
    ensures Trimmed(MappingText(m))
  {
    assert AltHex(m.addr)[0] == '0';
  }

  lemma MappingPieces(m: Mapping)
    ensures var v, n := MappingText(m), |AltHex(m.addr)|;
            n < |v| && Strtol(v) == (Clamp(m.addr), n) && v[n] == ':' && v[n + 1..] == m.file
  {
    assert MappingText(m) == AltHex(m.addr) + (":" + m.file);
    StrtolOfAltHex(m.addr, ":" + m.file);
  }

  lemma MappingReads(m: Mapping, was: OptionValue)
    requires StoredMapping(m) && was.Maps?
    ensures ParseValue(MapMulti, was, MappingText(m)) == (Maps(was.m + [Mapping(Clamp(m.addr), m.file)]), true)
  {
    MappingPieces(m);
    ParseMappingAt(was, MappingText(m), Clamp(m.addr), |AltHex(m.addr)|, m.file);
  }

  lemma ParseMappingAt(was: OptionValue, v: string, n: int, end: nat, file: string)
    requires was.Maps? && end < |v| && Strtol(v) == (n, end) && v[end] == ':' && v[end + 1..] == file
    requires n >= 0 && (file == [] || !IsSpace(file[|file| - 1]))
    ensures ParseValue(MapMulti, was, v) == (Maps(was.m + [Mapping(n, file)]), true)
  {
    ChompOfTrimmed(file);
  }

  lemma {:induction false} MappingTextsTrimmed(ms: seq<Mapping>, k: nat)
    requires forall k :: 0 <= k < |ms| ==> StoredMapping(ms[k])
    requires k < |MappingTexts(ms)|
    ensures Trimmed(MappingTexts(ms)[k])
  {
    if k == 0 {
      MappingTextTrimmed(ms[0]);
    } else {
      MappingTextsTrimmed(ms[1..], k - 1);
    }
  }

  lemma ParseAllCons(kind: Kind, was: OptionValue, text: string, rest: seq<string>, v: OptionValue)
    requires HasKind(was, kind) && ParseValue(kind, was, text) == (v, true)
    ensures HasKind(v, kind) && ParseAll(kind, was, [text] + rest) == ParseAll(kind, v, rest)
  {
    assert ([text] + rest)[1..] == rest;
  }

  lemma MappingStep(m: Mapping, was: OptionValue, rest: seq<string>)
    requires StoredMapping(m) && was.Maps?
    ensures ParseAll(MapMulti, was, [MappingText(m)] + rest) ==
            ParseAll(MapMulti, Maps(was.m + [Mapping(Clamp(m.addr), m.file)]), rest)
  {
    MappingReads(m, was);
    ParseAllCons(MapMulti, was, MappingText(m), rest, Maps(was.m + [Mapping(Clamp(m.addr), m.file)]));
  }

  lemma {:induction false} MappingsRead(ms: seq<Mapping>, was: OptionValue)
    requires was.Maps? && forall k :: 0 <= k < |ms| ==> StoredMapping(ms[k])
    ensures ParseAll(MapMulti, was, MappingTexts(ms)) == (Maps(was.m + ClampAll(ms)), true)
    decreases |ms|
  {
    if ms == [] {
      assert was.m + [] == was.m;
    } else {
      var next := was.m + [Mapping(Clamp(ms[0].addr), ms[0].file)];
      calc {
        ParseAll(MapMulti, was, MappingTexts(ms));
        { MappingStep(ms[0], was, MappingTexts(ms[1..])); }
        ParseAll(MapMulti, Maps(next), MappingTexts(ms[1..]));
        { MappingsRead(ms[1..], Maps(next)); }
        (Maps(next + ClampAll(ms[1..])), true);
        { assert next + ClampAll(ms[1..]) == was.m + ClampAll(ms); }
        (Maps(was.m + ClampAll(ms)), true);
      }
    }
  }

  lemma {:induction false} StringsRead(l: seq<string>, was: OptionValue)
    requires was.List? && forall k :: 0 <= k < |l| ==> StoredString(l[k])
    ensures ParseAll(Multi, was, l) == (List(was.l + l), true)
    decreases |l|
  {
    if l != [] {
      ChompOfTrimmed(l[0]);
      StringsRead(l[1..], List(was.l + [l[0]]));
      assert was.l + [l[0]] + l[1..] == was.l + l;
    } else {
      assert was.l + [] == was.l;
    }
  }

  lemma ParseOne(kind: Kind, was: OptionValue, text: string, v: OptionValue, ok: bool)
    requires HasKind(was, kind) && ParseValue(kind, was, text) == (v, ok)
    ensures HasKind(v, kind) && ParseAll(kind, was, [text]) == (v, ok)
  {
    assert [text][1..] == [];
  }

  lemma EnumReads(names: seq<EnumName>, n: int, was: OptionValue)
    requires was.Num? && GoodKind(Enum(names)) && Canonical(Enum(names), Num(n))
    ensures Trimmed(NameOf(names, n)) && ParseValue(Enum(names), was, NameOf(names, n)) == (Num(n), true)
  {
    var i := NameOfIs(names, n);
    OneWord(names[i].name);
    FindNameOf(names, i);
  }

  lemma IntegerReads(n: int, was: OptionValue)
    requires was.Num? && -0x8000_0000 <= n < 0x8000_0000
    ensures Trimmed(Decimal(n)) && ParseValue(Integer, was, Decimal(n)) == (Num(n), true)
  {
    DecimalIsWord(n);
    OneWord(Decimal(n));
    StrtolOfDecimal(n);
  }

  lemma SingleReads(s: Option<string>, was: OptionValue)
    requires was.Str? && Canonical(Single, Str(s))
    ensures var text := if s == None then "~" else s.value;
            Trimmed(text) && ParseValue(Single, was, text) == (Str(s), true)
  {
    if s.Some? {
      ChompOfTrimmed(s.value);
    }
  }

  lemma TildeReads(kind: Kind, was: OptionValue)
    requires HasKind(was, kind) && (kind == Multi || kind == MapMulti) && Fresh(was)
    ensures Trimmed("~") && ParseValue(kind, was, "~") == (was, kind == Multi)
  {
    if kind == MapMulti {
      NoSpaceAtFront("~");
      assert "~"[0..] == "~";
      assert BaseZero("~") == (0, 0);
    }
  }

  /** The lines of one option give its value back, cut off at 2^63 - 1; only an empty list of
      mappings is refused. */
  lemma OptionReads(kind: Kind, v: OptionValue, was: OptionValue)
    requires HasKind(v, kind) && HasKind(was, kind) && GoodKind(kind) && Canonical(kind, v) && Fresh(was)
    ensures forall k :: 0 <= k < |ValueTexts(kind, v)| ==> Trimmed(ValueTexts(kind, v)[k])
    ensures ParseAll(kind, was, ValueTexts(kind, v)) == if v == Maps([]) then (was, false) else (Reread(v), true)
  {
    match kind
    case Enum(names) =>
      EnumReads(names, v.n, was);
      ParseOne(kind, was, NameOf(names, v.n), v, true);
    case Integer =>
      IntegerReads(v.n, was);
      ParseOne(kind, was, Decimal(v.n), v, true);
    case Single =>
      SingleReads(v.s, was);
      ParseOne(kind, was, if v.s == None then "~" else v.s.value, v, true);
    case Multi =>
      TildeReads(kind, was);
      if v.l == [] {
        ParseOne(kind, was, "~", was, true);
      } else {
        StringsRead(v.l, was);
        assert [] + v.l == v.l;
      }
    case MapMulti =>
      TildeReads(kind, was);
      if v.m == [] {
        ParseOne(kind, was, "~", was, false);
      } else {
        MappingsRead(v.m, was);
        assert [] + ClampAll(v.m) == ClampAll(v.m);
        forall k | 0 <= k < |MappingTexts(v.m)| ensures Trimmed(MappingTexts(v.m)[k]) {
          MappingTextsTrimmed(v.m, k);
        }
      }
  }

  // ---------- the whole configuration ----------

  lemma {:induction false} ApplyAllConcat(t: Table, c: Conf, a: seq<string>, b: seq<string>)
    requires Typed(t, c)
    ensures ApplyAll(t, c, a + b) ==
            if ApplyAll(t, c, a).1 then ApplyAll(t, ApplyAll(t, c, a).0, b) else ApplyAll(t, c, a)
    decreases |a|
  {
    if a == [] {
      assert a + b == b;
    } else {
      assert (a + b)[1..] == a[1..] + b;
      ApplyAllConcat(t, Apply(t, c, a[0]).0, a[1..], b);
    }
  }

  /** No option from index `from` on is an empty list of mappings. */
  ghost predicate MappingsGiven(c: Conf, from: nat) {
    forall i :: from <= i < |c| ==> c[i] != Maps([])
  }

  /** d is c for the options before `from`, and unassigned lists for the rest. */
  ghost predicate RebuiltTo(t: Table, c: Conf, d: Conf, from: nat) {
    && Typed(t, d) && |c| == |d|
    && (forall i :: 0 <= i < from && i < |c| ==> d[i] == Reread(c[i]))
    && (forall i :: from <= i < |c| ==> Fresh(d[i]))
  }

  lemma {:induction false} LogReads(t: Table, c: Conf, d: Conf, from: nat)
    requires GoodTable(t) && CanonicalConf(t, c) && from <= |t| && RebuiltTo(t, c, d, from)
    ensures var (r, ok) := ApplyAll(t, d, LogConf(t, c, from));
            (ok <==> MappingsGiven(c, from)) && (ok ==> RebuiltTo(t, c, r, |t|))
    decreases |t| - from
  {
    if from < |t| {
      var texts := ValueTexts(t[from].kind, c[from]);
      OptionReads(t[from].kind, c[from], d[from]);
      ApplyLines(t, d, from, texts);
      ApplyAllConcat(t, d, Lines(t[from].name, texts), LogConf(t, c, from + 1));
      if c[from] != Maps([]) {
        LogReads(t, c, d[from := Reread(c[from])], from + 1);
        assert MappingsGiven(c, from) <==> MappingsGiven(c, from + 1);
      }
    }
  }

  lemma {:induction false} ClampIsIdentity(m: seq<Mapping>)
    ensures ClampAll(m) == m <==> forall k :: 0 <= k < |m| ==> m[k].addr <= LONG_MAX
  {
    if m != [] {
      ClampIsIdentity(m[1..]);
      assert forall k :: 0 < k < |m| ==> m[k] == m[1..][k - 1];
      assert m == [m[0]] + m[1..];
    }
  }

  /** Mappings are given, and none lies at or above 2^63. */
  ghost predicate Printable(v: OptionValue) {
    v.Maps? ==> v.m != [] && forall k :: 0 <= k < |v.m| ==> v.m[k].addr <= LONG_MAX
  }

  /** log_conf() is undone by parse_line() on a configuration with unassigned lists if and only
      if every list of mappings is not empty and below 2^63. */
  lemma RoundTrip(t: Table, c: Conf, d: Conf)
    requires GoodTable(t) && CanonicalConf(t, c) && RebuiltTo(t, c, d, 0)
    ensures ApplyAll(t, d, LogConf(t, c, 0)) == (c, true) <==> forall i :: 0 <= i < |c| ==> Printable(c[i])
  {
    LogReads(t, c, d, 0);
    var (r, ok) := ApplyAll(t, d, LogConf(t, c, 0));
    forall i | 0 <= i < |c| ensures Printable(c[i]) <==> c[i] != Maps([]) && Reread(c[i]) == c[i] {
      if c[i].Maps? {
        ClampIsIdentity(c[i].m);
      }
    }
    if ok && (forall i :: 0 <= i < |c| ==> Printable(c[i])) {
      assert r == c;
    }
  }
}
