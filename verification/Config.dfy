/** The configuration language: options, their values, and what one line does to them. */
module Config {
  import opened Basics
  import opened Text

  // ---------- white space ----------

  /** The characters of `delim`, which are also those of isspace(). */
  predicate IsSpace(c: char) {
    c == ' ' || c == '\n' || c == '\r' || c == '\t' || c == '\U{000B}' || c == '\U{000C}'
  }

  /** strlen_chomp() */
  function ChompLen(s: string): (n: nat)
    ensures n <= |s| && (n > 0 ==> !IsSpace(s[n - 1]))
  {
    if s == [] || !IsSpace(s[|s| - 1]) then |s| else ChompLen(s[..|s| - 1])
  }

  function Chomp(s: string): string {
    s[..ChompLen(s)]
  }

  /** Only white space is chomped; what does not begin with any does not become empty. */
  lemma {:induction false} ChompLenIs(s: string)
    ensures forall k :: ChompLen(s) <= k < |s| ==> IsSpace(s[k])
    ensures s != [] && !IsSpace(s[0]) ==> Chomp(s) != [] && Chomp(s)[0] == s[0]
  {
    if s != [] && IsSpace(s[|s| - 1]) {
      var init := s[..|s| - 1];
      ChompLenIs(init);
      assert forall k :: 0 <= k < |init| ==> init[k] == s[k];
      assert Chomp(s) == Chomp(init);
    }
  }

  /** The number of leading white-space characters. */
  function SpaceLen(s: string): (n: nat)
    ensures n <= |s| && (n < |s| ==> !IsSpace(s[n]))
  {
    if s == [] || !IsSpace(s[0]) then 0 else 1 + SpaceLen(s[1..])
  }

  function Strip(s: string): string {
    s[SpaceLen(s)..]
  }

  lemma {:induction false} SpaceLenIs(s: string)
    ensures forall k :: 0 <= k < SpaceLen(s) ==> IsSpace(s[k])
  {
    if s != [] && IsSpace(s[0]) {
      SpaceLenIs(s[1..]);
      assert forall k :: 0 < k < |s| ==> s[k] == s[1..][k - 1];
    }
  }

  /** The number of characters before the first white space. */
  function WordLen(s: string): (n: nat)
    ensures n <= |s| && (n < |s| ==> IsSpace(s[n]))
  {
    if s == [] || IsSpace(s[0]) then 0 else 1 + WordLen(s[1..])
  }

  lemma {:induction false} WordLenIs(s: string)
    ensures forall k :: 0 <= k < WordLen(s) ==> !IsSpace(s[k])
  {
    if s != [] && !IsSpace(s[0]) {
      WordLenIs(s[1..]);
      assert forall k :: 0 < k < |s| ==> s[k] == s[1..][k - 1];
    }
  }

  /** The first word of s, and what strtok() goes on with. */
  function FirstWord(s: string): string {
    Strip(s)[..WordLen(Strip(s))]
  }

  function AfterWord(s: string): string {
    Strip(s)[WordLen(Strip(s))..]
  }

  /** parse_endline(): no further word. */
  predicate AtEnd(s: string) {
    Strip(s) == []
  }

  /** Nothing to trim and something left. */
  predicate Trimmed(s: string) {
    s != [] && !IsSpace(s[0]) && !IsSpace(s[|s| - 1])
  }

  /** Something without white space. */
  predicate Word(s: string) {
    s != [] && forall k :: 0 <= k < |s| ==> !IsSpace(s[k])
  }

  // ---------- numbers ----------

  const LONG_MAX: int := 0x7fff_ffff_ffff_ffff
  const LONG_MIN: int := -0x8000_0000_0000_0000

  /** The number of leading digits in base b. */
  function DigitRun(s: string, b: nat): (n: nat)
    ensures n <= |s| && AllDigits(s[..n], b) && (n < |s| ==> !IsDigit(s[n], b))
  {
    if s == [] || !IsDigit(s[0], b) then 0 else
      var n := DigitRun(s[1..], b);
      assert s[..n + 1] == [s[0]] + s[1..][..n];
      n + 1
  }

  function Clamp(n: int): int {
    if n > LONG_MAX then LONG_MAX else if n < LONG_MIN then LONG_MIN else n
  }

  /** The unsigned part of a number in base 0 notation: its value, and its length (0 if there
      is no digit). */
  function BaseZero(s: string): (r: (nat, nat))
    ensures r.1 <= |s|
  {
    if |s| >= 3 && s[0] == '0' && (s[1] == 'x' || s[1] == 'X') && IsDigit(s[2], 16) then
      (Value(s[2..][..DigitRun(s[2..], 16)], 16), 2 + DigitRun(s[2..], 16))
    else
      var b := if s != [] && s[0] == '0' then 8 else 10;
      (Value(s[..DigitRun(s, b)], b), DigitRun(s, b))
  }

  /** strtol(s, &end, 0) and strtoll(s, &end, 0), with end as an index. */
  function Strtol(s: string): (r: (int, nat))
    ensures r.1 <= |s| && LONG_MIN <= r.0 <= LONG_MAX
  {
    var i := SpaceLen(s);
    var sign := i < |s| && (s[i] == '-' || s[i] == '+');
    var j := if sign then i + 1 else i;
    var (n, len) := BaseZero(s[j..]);
    var signed: int := if sign && s[i] == '-' then 0 - n else n;
    if len == 0 then (0, 0) else (Clamp(signed), j + len)
  }

  /** (int) of a long: the low 32 bits. */
  function ToInt(n: int): (r: int)
    ensures -0x8000_0000 <= r < 0x8000_0000
    ensures -0x8000_0000 <= n < 0x8000_0000 ==> r == n
  {
    (n + 0x8000_0000) % 0x1_0000_0000 - 0x8000_0000
  }

  /** Conversion to uint64_t. */
  function ToUnsigned(n: int): (r: nat)
    ensures r < 0x1_0000_0000_0000_0000
    ensures 0 <= n < 0x1_0000_0000_0000_0000 ==> r == n
  {
    n % 0x1_0000_0000_0000_0000
  }

  // ---------- options and values ----------

  datatype Mapping = Mapping(addr: nat, file: string)

  datatype OptionValue = Num(n: int) | Str(s: Option<string>) | List(l: seq<string>) | Maps(m: seq<Mapping>)

  datatype EnumName = EnumName(name: string, value: int)

  /** How the value of an option is parsed. */
  datatype Kind = Enum(names: seq<EnumName>) | Integer | Single | Multi | MapMulti

  datatype Keyword = Keyword(name: string, kind: Kind)

  predicate HasKind(v: OptionValue, k: Kind) {
    match k
    case Enum(_) => v.Num?
    case Integer => v.Num?
    case Single => v.Str?
    case Multi => v.List?
    case MapMulti => v.Maps?
  }

  /** The value of a list option before anything was assigned to it. */
  predicate Fresh(v: OptionValue) {
    (v.List? ==> v.l == []) && (v.Maps? ==> v.m == [])
  }

  type Table = seq<Keyword>

  /** A configuration: one value for every keyword of the table. */
  type Conf = seq<OptionValue>

  /** The values of c are of the kinds that the table asks for. */
  ghost predicate Typed(t: Table, c: Conf) {
    |c| == |t| && forall i :: 0 <= i < |c| ==> HasKind(c[i], t[i].kind)
  }

  // ---------- one line ----------

  datatype Directive = Nothing | MissingValue(keyword: string) | Assign(keyword: string, value: string)

  /** The position of the first '=', or the length. */
  function EqualsAt(s: string): (k: nat)
    ensures k <= |s| && '=' !in s[..k] && (k < |s| ==> s[k] == '=')
  {
    if s == [] || s[0] == '=' then 0 else
      var k := EqualsAt(s[1..]);
      assert s[..k + 1] == [s[0]] + s[1..][..k];
      k + 1
  }

  /** parse_line() as a split and a trim. */
  function Split(line: string): (d: Directive)
    ensures d.Assign? ==> Trimmed(d.value) && d.keyword != [] && d.keyword[0] != '#'
  {
    var k := EqualsAt(line);
    var keyword := FirstWord(line[..k]);
    if keyword == [] || keyword[0] == '#' then Nothing
    else if k == |line| || Strip(line[k + 1..]) == [] then MissingValue(keyword)
    else
      ChompLenIs(Strip(line[k + 1..]));
      Assign(keyword, Chomp(Strip(line[k + 1..])))
  }

  function FindName(names: seq<EnumName>, word: string): (r: Option<int>) {
    if names == [] then None
    else if names[0].name == word then Some(names[0].value)
    else FindName(names[1..], word)
  }

  /** The parser of one kind of option, on a trimmed value: the new value, and success. */
  function ParseValue(kind: Kind, was: OptionValue, v: string): (r: (OptionValue, bool))
    requires HasKind(was, kind)
    ensures HasKind(r.0, kind)
  {
    match kind
    case Enum(names) =>
      (match FindName(names, FirstWord(v))
       case None => (was, false)
       case Some(n) => (Num(n), AtEnd(AfterWord(v))))
    case Integer =>
      var (n, end) := Strtol(FirstWord(v));
      if end != |FirstWord(v)| then (was, false) else (Num(ToInt(n)), AtEnd(AfterWord(v)))
    case Single => (Str(if v == "~" then None else Some(Chomp(v))), true)
    case Multi => (List(if v == "~" then [] else was.l + [Chomp(v)]), true)
    case MapMulti =>
      var (n, end) := Strtol(v);
      if end == |v| || v[end] != ':' then (was, false)
      else (Maps(was.m + [Mapping(ToUnsigned(n), Chomp(v[end + 1..]))]), true)
  }

  /** The index of a keyword, or the number of keywords. */
  function Find(t: Table, name: string): (i: nat)
    ensures i <= |t| && (i < |t| ==> t[i].name == name) && forall k :: 0 <= k < i ==> t[k].name != name
  {
    if t == [] || t[0].name == name then 0 else 1 + Find(t[1..], name)
  }

  /** parse_line(): the configuration afterwards, and whether the line was accepted. */
  function Apply(t: Table, c: Conf, line: string): (r: (Conf, bool))
    requires Typed(t, c)
    ensures Typed(t, r.0)
  {
    match Split(line)
    case Nothing => (c, true)
    case MissingValue(_) => (c, false)
    case Assign(keyword, value) =>
      var i := Find(t, keyword);
      if i == |t| then (c, false)
      else
        var (v, ok) := ParseValue(t[i].kind, c[i], value);
        (c[i := v], ok)
  }

  /** parse_file() on its lines: stops at the first one that is refused. */
  function ApplyAll(t: Table, c: Conf, lines: seq<string>): (r: (Conf, bool))
    requires Typed(t, c)
    ensures Typed(t, r.0)
    decreases |lines|
  {
    if lines == [] then (c, true)
    else
      var (c', ok) := Apply(t, c, lines[0]);
      if ok then ApplyAll(t, c', lines[1..]) else (c', false)
  }
}

/** The options of the program. */
module Options {
  import opened Basics
  import opened Config

  const BOOL: Kind := Enum([EnumName("0", 0), EnumName("1", 1)])

  const EXISTS: Kind :=
    Enum([EnumName("append", 1), EnumName("overwrite", 2), EnumName("keep", 3), EnumName("sequence", 4)])

  const LOGLEVEL: Kind :=
    Enum([EnumName("none", -1), EnumName("emerg", 0), EnumName("alert", 1), EnumName("crit", 2), EnumName("err", 3),
          EnumName("warning", 4), EnumName("notice", 5), EnumName("info", 6), EnumName("debug", 7)])

  const KEYWORDS: Table :=
    [Keyword("info_exists", EXISTS), Keyword("info_exists_seq", Integer), Keyword("info_filter", Multi),
     Keyword("info_mkdir", BOOL), Keyword("info_notify", Multi), Keyword("info_output", Single),
     Keyword("backtrace_max_depth", Integer),
     Keyword("core_exists", EXISTS), Keyword("core_exists_seq", Integer), Keyword("core_filter", Multi),
     Keyword("core_mkdir", BOOL), Keyword("core_notify", Multi), Keyword("core_output", Single),
     Keyword("core_buffer_size", Integer),
     Keyword("info_core_notify", Multi), Keyword("core", Single),
     Keyword("log_info", LOGLEVEL), Keyword("log_syslog", LOGLEVEL), Keyword("log_stderr", LOGLEVEL),
     Keyword("proc_ignore", BOOL), Keyword("proc_path", Single), Keyword("proc_exe", Single),
     Keyword("proc_maps", MapMulti),
     Keyword("proc_dump_root", Multi), Keyword("proc_dump_task", Multi)]

  /** The default configuration; the level for stderr depends on the build. */
  function Defaults(debug: bool): Conf {
    [Num(1), Num(0), List([]), Num(0), List([]), Str(None), Num(50),
     Num(3), Num(0), List([]), Num(0), List([]), Str(None), Num(4 * 1024 * 1024),
     List([]), Str(None), Num(5), Num(-1), Num(if debug then 7 else 3),
     Num(0), Str(None), Str(None), Maps([]), List([]), List([])]
  }
}
