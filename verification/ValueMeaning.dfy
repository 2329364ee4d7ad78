/** Which values the parsers of enumerations, integers and mappings accept, by their characters,
    and what they stand for. */
module ValueMeaning {
  import opened Basics
  import opened Text
  import opened Config
  import opened ConfigRoundTrip

  // ---------- numerals ----------

  /** A number in the notation of C: hexadecimal behind "0x", octal behind "0", else decimal. */
  ghost predicate Unsigned(u: string, n: nat) {
    || (u != [] && u[0] != '0' && AllDigits(u, 10) && n == Value(u, 10))
    || (u != [] && u[0] == '0' && AllDigits(u, 8) && n == Value(u, 8))
    || (|u| >= 3 && u[0] == '0' && (u[1] == 'x' || u[1] == 'X') && AllDigits(u[2..], 16) && n == Value(u[2..], 16))
  }

  /** The same, with or without a sign. */
  ghost predicate Denotes(w: string, z: int) {
    || (z >= 0 && Unsigned(w, z))
    || (z >= 0 && w != [] && w[0] == '+' && Unsigned(w[1..], z))
    || (z <= 0 && w != [] && w[0] == '-' && Unsigned(w[1..], -z))
  }

  predicate Ends(rest: string) {
    rest == [] || rest[0] == ':'
  }

  lemma OctalReads(u: string, rest: string)
    requires u != [] && u[0] == '0' && AllDigits(u, 8) && Ends(rest)
    ensures BaseZero(u + rest) == (Value(u, 8), |u|)
  {
    var s := u + rest;
    assert s[0] == u[0] && s[..|u|] == u && (|s| > 1 ==> s[1] == if |u| > 1 then u[1] else rest[0]);
    DigitRunIs(s, |u|, 8);
  }

  lemma HexReads(u: string, rest: string)
    requires |u| >= 3 && u[0] == '0' && (u[1] == 'x' || u[1] == 'X') && AllDigits(u[2..], 16) && Ends(rest)
    ensures BaseZero(u + rest) == (Value(u[2..], 16), |u|)
  {
    var s, d := u + rest, u[2..];
    assert s[2..] == d + rest && s[0] == u[0] && s[1] == u[1] && s[2] == d[0] && (d + rest)[..|d|] == d;
    DigitRunIs(d + rest, |d|, 16);
  }

  lemma UnsignedReads(u: string, rest: string, n: nat)
    requires Unsigned(u, n) && Ends(rest)
    ensures u != [] && IsDigit(u[0], 10) && BaseZero(u + rest) == (n, |u|)
  {
    if u[0] != '0' {
      DecimalPrefix(u, u + rest, rest);
    } else if AllDigits(u, 8) && n == Value(u, 8) {
      OctalReads(u, rest);
    } else {
      HexReads(u, rest);
    }
  }

  /** What strtol() reads is a number. */
  lemma ReadsUnsigned(s: string)
    requires BaseZero(s).1 > 0
    ensures Unsigned(s[..BaseZero(s).1], BaseZero(s).0)
  {
    var u := s[..BaseZero(s).1];
    if |s| >= 3 && s[0] == '0' && (s[1] == 'x' || s[1] == 'X') && IsDigit(s[2], 16) {
      assert u[2..] == s[2..][..DigitRun(s[2..], 16)] && u[0] == s[0] && u[1] == s[1];
    } else {
      assert u[0] == s[0];
    }
  }

  predicate Signed(s: string) {
    s != [] && (s[0] == '-' || s[0] == '+')
  }

  /** strtol() by what stands behind the sign. */
  lemma StrtolOfVisible(s: string, behind: string)
    requires s != [] && !IsSpace(s[0]) && behind == s[if Signed(s) then 1 else 0..]
    ensures var (n, len) := BaseZero(behind);
            var z: int := if s[0] == '-' then 0 - n else n;
            Strtol(s) == if len == 0 then (0, 0) else (Clamp(z), len + if Signed(s) then 1 else 0)
  {
    NoSpaceAtFront(s);
  }

  lemma PlainReads(w: string, rest: string, n: nat)
    requires Unsigned(w, n) && Ends(rest)
    ensures Strtol(w + rest) == (Clamp(n), |w|) && w != [] && !IsSpace(w[0])
  {
    var s := w + rest;
    UnsignedReads(w, rest, n);
    assert s[0..] == s && s[0] == w[0];
    StrtolOfVisible(s, s);
  }

  lemma SignedReads(w: string, rest: string, n: nat)
    requires Signed(w) && Unsigned(w[1..], n) && Ends(rest)
    ensures var z: int := if w[0] == '-' then 0 - n else n; Strtol(w + rest) == (Clamp(z), |w|)
  {
    var s, behind := w + rest, w[1..] + rest;
    UnsignedReads(w[1..], rest, n);
    assert s[0] == w[0] && s[1..] == behind;
    StrtolOfVisible(s, behind);
  }

  lemma NumeralReads(w: string, rest: string, z: int)
    requires Denotes(w, z) && Ends(rest)
    ensures Strtol(w + rest) == (Clamp(z), |w|) && w != [] && !IsSpace(w[0])
  {
    if z >= 0 && Unsigned(w, z) {
      PlainReads(w, rest, z);
    } else {
      SignedReads(w, rest, if w[0] == '-' then -z else z);
    }
  }

  lemma ReadsNumeral(s: string) returns (z: int)
    requires s != [] && !IsSpace(s[0]) && Strtol(s).1 > 0
    ensures Denotes(s[..Strtol(s).1], z)
  {
    var end, j := Strtol(s).1, if Signed(s) then 1 else 0;
    var behind := s[j..];
    StrtolOfVisible(s, behind);
    var n: int := BaseZero(behind).0;
    ReadsUnsigned(behind);
    assert end == j + BaseZero(behind).1;
    assert s[..end][j..] == behind[..end - j] && s[..end][0] == s[0];
    assert s[..end][0..] == s[..end];
    z := if s[0] == '-' then -n else n;
  }

  // ---------- what is stored ----------

  /** What is stored as an int: the number, but for multiples of 2^32; strtol() stops at the
      bounds of long. */
  predicate StoredInt(z: int, r: int) {
    && -0x8000_0000 <= r < 0x8000_0000
    && (if z > LONG_MAX then r == -1 else if z < LONG_MIN then r == 0 else (z - r) % 0x1_0000_0000 == 0)
  }

  /** The same as a uint64_t. */
  predicate StoredAddress(z: int, r: nat) {
    && r < 0x1_0000_0000_0000_0000
    && (if z > LONG_MAX then r == 0x7fff_ffff_ffff_ffff
        else if z < LONG_MIN then r == 0x8000_0000_0000_0000
        else (z - r) % 0x1_0000_0000_0000_0000 == 0)
  }

  lemma IntOf(z: int)
    ensures StoredInt(z, ToInt(Clamp(z)))
  {
  }

  lemma AddressOf(z: int)
    ensures StoredAddress(z, ToUnsigned(Clamp(z)))
  {
  }

  // ---------- values of one word ----------

  /** A value is its first word and what follows. */
  predicate WordThen(w: string, rest: string) {
    Word(w) && (rest == [] || IsSpace(rest[0])) && Trimmed(w + rest)
  }

  lemma NothingBehind(w: string, rest: string)
    requires WordThen(w, rest)
    ensures FirstWord(w + rest) == w && AtEnd(AfterWord(w + rest)) == (rest == [])
  {
    FirstWordOf(w, rest);
    SpaceLenIs(rest);
    assert rest != [] ==> (w + rest)[|w + rest| - 1] == rest[|rest| - 1];
  }

  predicate IsName(names: seq<EnumName>, i: nat, w: string) {
    i < |names| && names[i].name == w && forall k :: 0 <= k < i ==> names[k].name != w
  }

  lemma {:induction false} NoName(names: seq<EnumName>, w: string)
    requires forall k :: 0 <= k < |names| ==> names[k].name != w
    ensures FindName(names, w) == None
  {
    if names != [] {
      assert names[0].name != w;
      NoName(names[1..], w);
    }
  }

  /** An enumeration: the first word has to be a name and is stored then; the value is accepted
      if nothing follows. */
  lemma EnumMeans(names: seq<EnumName>, was: OptionValue, w: string, rest: string)
    requires was.Num? && WordThen(w, rest)
    ensures forall i: nat :: IsName(names, i, w) ==>
              ParseValue(Enum(names), was, w + rest) == (Num(names[i].value), rest == [])
    ensures (forall k :: 0 <= k < |names| ==> names[k].name != w) ==>
              ParseValue(Enum(names), was, w + rest) == (was, false)
  {
    NothingBehind(w, rest);
    forall i: nat | IsName(names, i, w) ensures FindName(names, w) == Some(names[i].value) {
      FindNameOf(names, i);
    }
    if forall k :: 0 <= k < |names| ==> names[k].name != w {
      NoName(names, w);
    }
  }

  /** An integer: the first word has to be a number in the notation of C and is stored then; the
      value is accepted if nothing follows. */
  lemma IntegerMeans(was: OptionValue, w: string, rest: string)
    requires was.Num? && WordThen(w, rest)
    ensures var (v, ok) := ParseValue(Integer, was, w + rest);
            && (forall z :: Denotes(w, z) ==> v.Num? && StoredInt(z, v.n) && ok == (rest == []))
            && ((forall z :: !Denotes(w, z)) ==> (v, ok) == (was, false))
  {
    NothingBehind(w, rest);
    assert w + [] == w && w[..|w|] == w;
    forall z | Denotes(w, z) ensures Strtol(w) == (Clamp(z), |w|) && StoredInt(z, ToInt(Clamp(z))) {
      NumeralReads(w, [], z);
      IntOf(z);
    }
    if Strtol(w).1 == |w| {
      var z := ReadsNumeral(w);
      assert Denotes(w, z);
    }
  }

  lemma SmallInteger(was: OptionValue, w: string, z: int)
    requires was.Num? && Word(w) && Denotes(w, z) && -0x8000_0000 <= z < 0x8000_0000
    ensures ParseValue(Integer, was, w) == (Num(z), true)
  {
    assert w + [] == w && Trimmed(w);
    IntegerMeans(was, w, []);
    var (v, ok) := ParseValue(Integer, was, w);
    StoredSmall(z, v.n);
  }

  lemma StoredSmall(z: int, r: int)
    requires StoredInt(z, r) && -0x8000_0000 <= z < 0x8000_0000
    ensures r == z
  {
  }

  lemma TwoDigits(a: char, c: char, b: nat)
    requires IsDigit(a, b) && IsDigit(c, b)
    ensures AllDigits([a, c], b) && Value([a, c], b) == DigitValue(a) * b + DigitValue(c)
  {
    ValueOfOne(a, b);
    ValueOfSnoc([a], c, b);
    assert [a] + [c] == [a, c];
  }

  /** Octal and hexadecimal numbers. */
  lemma OctalExample(was: OptionValue)
    requires was.Num?
    ensures ParseValue(Integer, was, "010") == (Num(8), true)
  {
    TwoDigits('0', '1', 8);
    ValueOfSnoc(['0', '1'], '0', 8);
    assert ['0', '1'] + ['0'] == "010";
    SmallInteger(was, "010", 8);
  }

  lemma HexExample(was: OptionValue)
    requires was.Num?
    ensures ParseValue(Integer, was, "-0X1f") == (Num(-31), true)
  {
    TwoDigits('1', 'f', 16);
    assert "-0X1f"[1..] == "0X1f" && "0X1f"[2..] == ['1', 'f'];
    assert Unsigned("0X1f", 31);
    SmallInteger(was, "-0X1f", -31);
  }

  /** A word that begins with "0", but not with "0x", has to be octal. */
  lemma NotOctal(was: OptionValue, w: string, k: nat)
    requires was.Num? && Word(w) && 1 <= k < |w| && w[0] == '0' && w[1] != 'x' && w[1] != 'X'
    requires !IsDigit(w[k], 8)
    ensures ParseValue(Integer, was, w) == (was, false)
  {
    assert w + [] == w && Trimmed(w);
    IntegerMeans(was, w, []);
  }

  // ---------- mappings ----------

  /** The address of a mapping; none stands for 0. */
  ghost predicate Address(a: string, z: int) {
    (a == [] && z == 0) || Denotes(a, z)
  }

  lemma AddressReads(a: string, z: int, file: string)
    requires Address(a, z)
    ensures Strtol(a + (":" + file)) == (Clamp(z), |a|)
  {
    var v := a + (":" + file);
    if a == [] && z == 0 {
      assert v[0..] == v && v[0] == ':' && BaseZero(v).1 == 0;
      StrtolOfVisible(v, v);
    } else {
      NumeralReads(a, ":" + file, z);
    }
  }

  lemma ReadsAddress(v: string) returns (z: int)
    requires v != [] && !IsSpace(v[0])
    ensures Address(v[..Strtol(v).1], z)
  {
    z := 0;
    if Strtol(v).1 > 0 {
      z := ReadsNumeral(v);
    }
  }

  /** A mapping: a number or nothing, a colon, and the file. */
  lemma MappingMeans(was: OptionValue, a: string, z: int, file: string)
    requires was.Maps? && Address(a, z)
    ensures var (v, ok) := ParseValue(MapMulti, was, a + (":" + file));
            ok && exists addr :: StoredAddress(z, addr) && v == Maps(was.m + [Mapping(addr, Chomp(file))])
  {
    var v := a + (":" + file);
    assert v[|a|] == ':' && v[|a| + 1..] == file;
    AddressOf(z);
    AddressReads(a, z, file);
  }

  ghost predicate IsMapping(v: string) {
    exists a, z, file :: Address(a, z) && v == a + (":" + file)
  }

  lemma MappingAt(v: string, end: nat, z: int)
    requires end < |v| && v[end] == ':' && Address(v[..end], z)
    ensures IsMapping(v)
  {
    var a, file := v[..end], v[end + 1..];
    assert v == a + (":" + file);
  }

  lemma NoMappingAt(v: string)
    requires Trimmed(v) && !IsMapping(v)
    ensures var end := Strtol(v).1; end < |v| ==> v[end] != ':'
  {
    var end := Strtol(v).1;
    var z := ReadsAddress(v);
    if end < |v| && v[end] == ':' {
      MappingAt(v, end, z);
    }
  }

  lemma RefusedMapping(was: OptionValue, v: string)
    requires was.Maps? && (Strtol(v).1 < |v| ==> v[Strtol(v).1] != ':')
    ensures ParseValue(MapMulti, was, v) == (was, false)
  {
  }

  /** Nothing else is accepted. */
  lemma MappingIff(was: OptionValue, v: string)
    requires was.Maps? && Trimmed(v)
    ensures ParseValue(MapMulti, was, v).1 <==> IsMapping(v)
    ensures !IsMapping(v) ==> ParseValue(MapMulti, was, v).0 == was
  {
    if IsMapping(v) {
      var a, z, file :| Address(a, z) && v == a + (":" + file);
      MappingMeans(was, a, z, file);
    } else {
      NoMappingAt(v);
      RefusedMapping(was, v);
    }
  }
}

/** What the program's own enumerations stand for. */
module OptionMeaning {
  import opened Basics
  import opened Config
  import opened ConfigPrinting
  import opened ConfigRoundTrip
  import opened FileSystem
  import opened Options
  import opened OptionsRoundTrip
  import opened LineMeaning
  import opened ValueMeaning

  /** enum conf_exists_e */
  function PolicyOf(n: int): Option<Policy> {
    if n == 1 then Some(Append)
    else if n == 2 then Some(Overwrite)
    else if n == 3 then Some(Keep)
    else if n == 4 then Some(Sequence)
    else None
  }

  function PolicyName(p: Policy): string {
    match p
    case Append => "append"
    case Overwrite => "overwrite"
    case Keep => "keep"
    case Sequence => "sequence"
  }

  /** The severities of syslog, in their order (section 6.2.1 of RFC 5424). */
  const SEVERITIES: seq<string> := ["emerg", "alert", "crit", "err", "warning", "notice", "info", "debug"]

  /** The test before a message of this severity is printed. */
  predicate Passes(threshold: int, severity: int) {
    threshold >= severity
  }

  lemma ExistsNames(p: Policy) returns (i: nat)
    ensures IsName(EXISTS.names, i, PolicyName(p)) && PolicyOf(EXISTS.names[i].value) == Some(p)
  {
    i := match p case Append => 0 case Overwrite => 1 case Keep => 2 case Sequence => 3;
    assert "append"[0] == 'a' && "overwrite"[0] == 'o' && "keep"[0] == 'k' && "sequence"[0] == 's';
  }

  lemma OneName(names: seq<EnumName>, i: nat, w: string, was: OptionValue)
    requires IsName(names, i, w) && PlainWord(w) && was.Num?
    ensures Trimmed(w) && ParseValue(Enum(names), was, w) == (Num(names[i].value), true)
  {
    assert w + [] == w;
    OneWord(w);
    EnumMeans(names, was, w, []);
  }

  /** The value of `info_exists` and `core_exists` is the name of a policy, which is stored; every
      other value is refused. */
  lemma ExistsMeans(was: OptionValue, v: string)
    requires was.Num? && Trimmed(v)
    ensures forall p :: v == PolicyName(p) ==>
              var (n, ok) := ParseValue(EXISTS, was, v);
              ok && n.Num? && PolicyOf(n.n) == Some(p)
    ensures ParseValue(EXISTS, was, v).1 ==> exists p :: v == PolicyName(p)
  {
    KindsAreGood();
    forall p | v == PolicyName(p)
      ensures var (n, ok) := ParseValue(EXISTS, was, v); ok && n.Num? && PolicyOf(n.n) == Some(p)
    {
      var i := ExistsNames(p);
      OneName(EXISTS.names, i, v, was);
    }
    if ParseValue(EXISTS, was, v).1 {
      var i := AcceptedName(EXISTS.names, was, v);
      ExistsAt(i);
    }
  }

  /** An accepted value of an enumeration is one of its names. */
  lemma AcceptedName(names: seq<EnumName>, was: OptionValue, v: string) returns (i: nat)
    requires was.Num? && Trimmed(v) && ParseValue(Enum(names), was, v).1
    ensures i < |names| && names[i].name == v
  {
    var w, rest := FirstWord(v), AfterWord(v);
    NoSpaceAtFront(v);
    WordLenIs(v);
    assert v == w + rest && WordThen(w, rest);
    NothingBehind(w, rest);
    EnumMeans(names, was, w, rest);
    i :| 0 <= i < |names| && names[i].name == w;
  }

  lemma ExistsAt(i: nat)
    requires i < |EXISTS.names|
    ensures exists p :: EXISTS.names[i].name == PolicyName(p) && PolicyOf(EXISTS.names[i].value) == Some(p)
  {
    var p := if i == 0 then Append else if i == 1 then Overwrite else if i == 2 then Keep else Sequence;
    assert EXISTS.names[i].name == PolicyName(p) && PolicyOf(EXISTS.names[i].value) == Some(p);
  }

  /** The line that chooses a policy, with any white space around its words. */
  lemma ExistsLine(c: Conf, i: nat, p: Policy, blank: string, between: string, before: string, after: string)
    requires Typed(KEYWORDS, c) && (i == 0 || i == 7)
    requires Blank(blank) && Blank(between) && Blank(before) && Blank(after)
    ensures var name := if i == 0 then "info_exists" else "core_exists";
            var (d, ok) := Apply(KEYWORDS, c, blank + (name + between) + "=" + (before + (PolicyName(p) + after)));
            ok && i < |c| && exists n :: PolicyOf(n) == Some(p) && d == c[i := Num(n)]
  {
    var v := PolicyName(p);
    ExistsKeyword(i);
    KeywordsAreGood();
    PolicyTrimmed(p);
    KeywordLine(KEYWORDS, c, i, v, blank, between, before, after);
    ExistsMeans(c[i], v);
  }

  lemma ExistsKeyword(i: nat)
    requires i == 0 || i == 7
    ensures |KEYWORDS| > 7 && KEYWORDS[i].kind == EXISTS
    ensures KEYWORDS[i].name == if i == 0 then "info_exists" else "core_exists"
  {
  }

  lemma PolicyTrimmed(p: Policy)
    ensures Trimmed(PolicyName(p))
  {
  }

  /** Whatever was read, each output has one of the policies: by default, the information is
      appended and an old core is kept. */
  lemma PoliciesInForce(debug: bool, lines: seq<string>)
    ensures Typed(KEYWORDS, Defaults(debug))
    ensures var c, d := ApplyAll(KEYWORDS, Defaults(debug), lines).0, Defaults(debug);
            && |c| == |d| == |KEYWORDS| > 7 && c[0].Num? && c[7].Num? && d[0].Num? && d[7].Num?
            && PolicyOf(c[0].n).Some? && PolicyOf(c[7].n).Some?
            && PolicyOf(d[0].n) == Some(Append) && PolicyOf(d[7].n) == Some(Keep)
  {
    DefaultsAreCanonical(debug);
    ReachableIsCanonical(KEYWORDS, Defaults(debug), lines);
    EnumKinds();
    DefaultEnums(debug);
    var c := ApplyAll(KEYWORDS, Defaults(debug), lines).0;
    forall i | i == 0 || i == 7 ensures c[i].Num? && PolicyOf(c[i].n).Some? {
      assert Canonical(KEYWORDS[i].kind, c[i]);
      var k :| 0 <= k < |EXISTS.names| && EXISTS.names[k].value == c[i].n;
      ExistsAt(k);
    }
  }

  lemma LevelAt(severity: nat)
    requires severity < |SEVERITIES|
    ensures IsName(LOGLEVEL.names, severity + 1, SEVERITIES[severity])
    ensures LOGLEVEL.names[severity + 1].value == severity
  {
    LevelsAreGood();
    assert LOGLEVEL.names[severity + 1].name == SEVERITIES[severity];
  }

  /** The name of a severity lets through the messages of this severity and the graver ones;
      `none` lets nothing through. */
  lemma LevelMeans(was: OptionValue, severity: nat, message: nat)
    requires was.Num? && severity < |SEVERITIES| && message < |SEVERITIES|
    ensures var (n, ok) := ParseValue(LOGLEVEL, was, SEVERITIES[severity]);
            ok && n.Num? && (Passes(n.n, message) <==> message <= severity)
    ensures var (n, ok) := ParseValue(LOGLEVEL, was, "none");
            ok && n.Num? && !Passes(n.n, message)
  {
    LevelAt(severity);
    LevelsAreGood();
    OneName(LOGLEVEL.names, severity + 1, SEVERITIES[severity], was);
    assert LOGLEVEL.names[0].name == "none" && LOGLEVEL.names[0].value == -1;
    OneName(LOGLEVEL.names, 0, "none", was);
  }
}
