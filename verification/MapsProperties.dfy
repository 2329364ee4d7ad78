/** What the maps loop does to well-formed files, in the layout of proc(5). */
module MapsProperties {
  import opened Basics
  import opened Text
  import opened Config
  import opened ConfigPrinting
  import opened ConfigRoundTrip
  import opened MapsFile
  import opened LineReader

  /** One line of /proc/PID/maps; `gaps` are the numbers of spaces between its fields. */
  datatype MapsLine = MapsLine(start: string, end: string, perms: string, offset: string, device: string,
                               inode: string, path: string, gaps: seq<nat>)

  predicate WellFormed(l: MapsLine) {
    && l.start != [] && AllDigits(l.start, 16) && Value(l.start, 16) <= UINTMAX
    && l.end != [] && AllDigits(l.end, 16)
    && |l.perms| == 4 && Word(l.perms)
    && l.offset != [] && AllDigits(l.offset, 16)
    && Word(l.device)
    && l.inode != [] && AllDigits(l.inode, 10)
    && (l.path == [] || !IsSpace(l.path[0])) && '\n' !in l.path
    && |l.gaps| == 5 && forall k :: 0 <= k < 5 ==> l.gaps[k] >= 1
  }

  function Spaces(n: nat): string {
    Repeat(' ', n)
  }

  // The line from each of its fields on.

  function FromPath(l: MapsLine): string {
    l.path + "\n"
  }

  function FromInode(l: MapsLine): string
    requires |l.gaps| == 5
  {
    l.inode + (Spaces(l.gaps[4]) + FromPath(l))
  }

  function FromDevice(l: MapsLine): string
    requires |l.gaps| == 5
  {
    l.device + (Spaces(l.gaps[3]) + FromInode(l))
  }

  function FromOffset(l: MapsLine): string
    requires |l.gaps| == 5
  {
    l.offset + (Spaces(l.gaps[2]) + FromDevice(l))
  }

  function FromPerms(l: MapsLine): string
    requires |l.gaps| == 5
  {
    l.perms + (Spaces(l.gaps[1]) + FromOffset(l))
  }

  function FromEnd(l: MapsLine): string
    requires |l.gaps| == 5
  {
    l.end + (Spaces(l.gaps[0]) + FromPerms(l))
  }

  function LineText(l: MapsLine): string
    requires |l.gaps| == 5
  {
    l.start + ("-" + FromEnd(l))
  }

  /** Where the path begins. */
  function PathAt(l: MapsLine): nat
    requires |l.gaps| == 5
  {
    |LineText(l)| - |FromPath(l)|
  }

  // ---------- scanning field by field ----------

  lemma {:induction false} StripOf(n: nat, rest: string)
    requires rest == [] || !IsSpace(rest[0])
    ensures Strip(Spaces(n) + rest) == rest
  {
    var s := Spaces(n) + rest;
    if n == 0 {
      assert s == rest;
    } else {
      assert s[1..] == Spaces(n - 1) + rest;
      StripOf(n - 1, rest);
      assert s[1 + SpaceLen(s[1..])..] == s[1..][SpaceLen(s[1..])..];
    }
  }

  lemma DigitsAndRest(digits: string, rest: string, b: nat)
    requires digits != [] && AllDigits(digits, b) && b <= 16 && (rest == [] || !IsDigit(rest[0], b))
    ensures var s := digits + rest;
            DigitRun(s, b) == |digits| && s[..|digits|] == digits && s[|digits|..] == rest &&
            s[0] == digits[0] && IsDigit(s[0], 16)
  {
    var s := digits + rest;
    assert s[0] == digits[0] && IsDigit(digits[0], b);
    assert s[..|digits|] == digits;
    DigitRunIs(s, |digits|, b);
  }

  lemma NoPrefix(digits: string, rest: string)
    requires digits != [] && AllDigits(digits, 16) && rest != [] && rest[0] != 'x' && rest[0] != 'X'
    ensures Unprefixed(digits + rest) == digits + rest
  {
    var s := digits + rest;
    assert |digits| > 1 ==> s[1] == digits[1] && IsDigit(digits[1], 16);
  }

  /** "%x" on digits, behind n spaces. */
  lemma ScanHexOf(n: nat, digits: string, rest: string)
    requires digits != [] && AllDigits(digits, 16)
    requires rest != [] && !IsDigit(rest[0], 16) && rest[0] != 'x' && rest[0] != 'X'
    ensures var r := ScanHex(Spaces(n) + (digits + rest));
            r.Some? && r.value.1 == rest && (Value(digits, 16) <= UINTMAX ==> r.value.0 == Value(digits, 16))
  {
    DigitsAndRest(digits, rest, 16);
    NoPrefix(digits, rest);
    StripOf(n, digits + rest);
  }

  lemma ScanDecimalOf(n: nat, digits: string, rest: string)
    requires digits != [] && AllDigits(digits, 10) && (rest == [] || !IsDigit(rest[0], 10))
    ensures ScanDecimal(Spaces(n) + (digits + rest)) == Some(rest)
  {
    DigitsAndRest(digits, rest, 10);
    StripOf(n, digits + rest);
  }

  lemma ScanWordOf(n: nat, word: string, rest: string)
    requires Word(word) && rest != [] && IsSpace(rest[0])
    ensures ScanWord(Spaces(n) + (word + rest)) == Some(rest)
  {
    var s := word + rest;
    assert s[0] == word[0];
    StripOf(n, s);
    WordLenOf(word, rest);
  }

  lemma SpacesFirst(n: nat, rest: string)
    requires n >= 1
    ensures (Spaces(n) + rest)[0] == ' ' && !IsDigit(' ', 16) && !IsDigit(' ', 10)
  {
  }

  lemma PathAtIs(l: MapsLine)
    requires |l.gaps| == 5
    ensures PathAt(l) == |l.start| + |l.end| + |l.perms| + |l.offset| + |l.device| + |l.inode| + 1 +
                         l.gaps[0] + l.gaps[1] + l.gaps[2] + l.gaps[3] + l.gaps[4]
  {
  }

  lemma StripPath(l: MapsLine)
    requires WellFormed(l)
    ensures Strip(Spaces(l.gaps[4]) + FromPath(l)) == if l.path == [] then [] else FromPath(l)
  {
    if l.path == [] {
      assert Spaces(l.gaps[4]) + FromPath(l) == Spaces(l.gaps[4]) + "\n";
      AllSpaces(Spaces(l.gaps[4]) + FromPath(l));
    } else {
      assert FromPath(l)[0] == l.path[0];
      StripOf(l.gaps[4], FromPath(l));
    }
  }

  lemma {:induction false} AllSpaces(s: string)
    requires forall k :: 0 <= k < |s| ==> IsSpace(s[k])
    ensures SpaceLen(s) == |s| && Strip(s) == []
  {
    if s != [] {
      AllSpaces(s[1..]);
    }
  }

  /** "%*x %*s %*d %n%c" */
  lemma ScanTailOf(l: MapsLine)
    requires WellFormed(l)
    ensures ScanTail(Spaces(l.gaps[1]) + FromOffset(l)) == if l.path == [] then None else Some(FromPath(l))
  {
    SpacesFirst(l.gaps[2], FromDevice(l));
    SpacesFirst(l.gaps[3], FromInode(l));
    SpacesFirst(l.gaps[4], FromPath(l));
    ScanHexOf(l.gaps[1], l.offset, Spaces(l.gaps[2]) + FromDevice(l));
    ScanWordOf(l.gaps[2], l.device, Spaces(l.gaps[3]) + FromInode(l));
    ScanDecimalOf(l.gaps[3], l.inode, Spaces(l.gaps[4]) + FromPath(l));
    StripPath(l);
  }

  lemma RangeParts(b: string, addr: nat, end: string, rest: string)
    requires ScanHex(b).Some? && ScanHex(b).value.0 == addr && ScanHex(b).value.1 == "-" + end
    requires ScanHex(end).Some? && ScanHex(end).value.1 == rest
    ensures ScanRange(b).Some? && ScanRange(b).value.0 == addr && ScanRange(b).value.1 == Strip(rest)
  {
    assert ("-" + end)[1..] == end;
  }

  lemma ScanEndOf(l: MapsLine)
    requires WellFormed(l)
    ensures ScanHex(FromEnd(l)).Some? && ScanHex(FromEnd(l)).value.1 == Spaces(l.gaps[0]) + FromPerms(l)
  {
    assert FromEnd(l) == Spaces(0) + FromEnd(l);
    SpacesFirst(l.gaps[0], FromPerms(l));
    ScanHexOf(0, l.end, Spaces(l.gaps[0]) + FromPerms(l));
  }

  lemma ScanStartOf(l: MapsLine)
    requires WellFormed(l)
    ensures var r := ScanHex(LineText(l)); r.Some? && r.value.0 == Value(l.start, 16) && r.value.1 == "-" + FromEnd(l)
  {
    assert LineText(l) == Spaces(0) + LineText(l);
    ScanHexOf(0, l.start, "-" + FromEnd(l));
  }

  lemma ScanRangeOf(l: MapsLine)
    requires WellFormed(l)
    ensures var r := ScanRange(LineText(l)); r.Some? && r.value.0 == Value(l.start, 16) && r.value.1 == FromPerms(l)
  {
    ScanStartOf(l);
    ScanEndOf(l);
    RangeParts(LineText(l), Value(l.start, 16), FromEnd(l), Spaces(l.gaps[0]) + FromPerms(l));
    assert FromPerms(l)[0] == l.perms[0];
    StripOf(l.gaps[0], FromPerms(l));
  }

  predicate Found(o: Option<Scan>, addr: nat, exec: char, file: nat, first: char) {
    o.Some? && o.value.addr == addr && o.value.exec == exec && o.value.file == file && o.value.first == first
  }

  lemma ScanPermsOf(size: nat, addr: nat, all: string, rest: string)
    requires 4 <= |all| < size && addr <= UINTMAX && all[4..] == rest
    ensures ScanTail(rest).None? ==> ScanPerms(size, addr, all).None?
    ensures ScanTail(rest).Some? ==>
              var path := ScanTail(rest).value;
              path != [] && Found(ScanPerms(size, addr, all), addr, all[2], size - |path|, path[0])
  {
  }

  /** What sscanf() finds on a well-formed line. */
  lemma ScanLineOf(l: MapsLine)
    requires WellFormed(l)
    ensures l.path == [] ==> ScanLine(LineText(l)).None?
    ensures l.path != [] ==>
              Found(ScanLine(LineText(l)), Value(l.start, 16), l.perms[2], PathAt(l), l.path[0])
  {
    var size, addr, all, rest := |LineText(l)|, Value(l.start, 16), FromPerms(l), Spaces(l.gaps[1]) + FromOffset(l);
    ScanRangeOf(l);
    assert all[4..] == rest && all[2] == l.perms[2];
    ScanPermsOf(size, addr, all, rest);
    ScanTailOf(l);
    assert l.path != [] ==> FromPath(l)[0] == l.path[0];
  }

  // ---------- the assertion ----------

  lemma {:induction false} ValueBound(s: string)
    requires AllDigits(s, 16)
    ensures Value(s, 16) < Power16(|s|)
  {
    if s != [] {
      ValueBound(s[..|s| - 1]);
      assert IsDigit(s[|s| - 1], 16);
    }
  }

  /** The header never reaches the path: it has at most |start| + 13 characters, and the path
      begins at |start| + 14 or later. */
  lemma HeaderBeforePath(l: MapsLine)
    requires WellFormed(l)
    ensures |Header(Value(l.start, 16))| <= |l.start| + 13
    ensures PathAt(l) >= |l.start| + 14
  {
    ValueBound(l.start);
    DigitsBound(Value(l.start, 16), |l.start|);
    PathAtIs(l);
  }

  /** Both bounds are met by one line. */
  lemma HeaderBoundIsTight()
    ensures var l := MapsLine("1", "2", "r-xp", "0", "0", "0", "/a", [1, 1, 1, 1, 1]);
            WellFormed(l) && |Header(Value(l.start, 16))| == |l.start| + 13 && PathAt(l) == |l.start| + 14
  {
    var l := MapsLine("1", "2", "r-xp", "0", "0", "0", "/a", [1, 1, 1, 1, 1]);
    assert AllDigits("1", 16) && AllDigits("2", 16) && AllDigits("0", 16) && AllDigits("0", 10);
    assert Word("r-xp") && Word("0");
    ValueOfSnoc([], '1', 16);
    assert [] + ['1'] == "1" && Value([], 16) == 0;
    PathAtIs(l);
  }

  // ---------- the whole file ----------

  predicate Listed(l: MapsLine) {
    l.path != [] && l.path[0] == '/' && |l.perms| == 4 && l.perms[2] == 'x'
  }

  /** The mapping of one line, if it is listed. */
  function MappingOf(l: MapsLine): seq<Mapping>
    requires WellFormed(l)
  {
    if Listed(l) then [Mapping(Clamp(Value(l.start, 16)), Chomp(l.path))] else []
  }

  /** The mappings that a file stands for: executable lines with a path, in file order. */
  function Mappings(ls: seq<MapsLine>): seq<Mapping>
    requires forall k :: 0 <= k < |ls| ==> WellFormed(ls[k])
  {
    if ls == [] then [] else MappingOf(ls[0]) + Mappings(ls[1..])
  }

  function Texts(ls: seq<MapsLine>): seq<string>
    requires forall k :: 0 <= k < |ls| ==> WellFormed(ls[k])
  {
    if ls == [] then []
    else
      assert WellFormed(ls[0]);
      [LineText(ls[0])] + Texts(ls[1..])
  }

  lemma ChompNewline(path: string)
    requires path != [] && !IsSpace(path[0])
    ensures Chomp(path + "\n") == Chomp(path) && Chomp(path) != [] && Chomp(path)[0] == path[0]
  {
    var s := path + "\n";
    assert s[..|s| - 1] == path;
    assert ChompLen(s) == ChompLen(path);
    ChompLenIs(path);
  }

  lemma MapsKeywordIsPlain()
    ensures PlainWord("proc_maps") && "proc_maps"[0] == 'p'
  {
  }

  lemma ValueTrims(addr: nat, path: string)
    requires path != [] && path[0] == '/'
    ensures var right := AltHex(addr) + ":" + (path + "\n");
            Strip(right) == right && right != [] && Chomp(right) == MappingText(Mapping(addr, Chomp(path)))
  {
    var h := AltHex(addr) + ":";
    var right := h + (path + "\n");
    assert h[0] == '0' && right[0] == '0';
    NoSpaceAtFront(right);
    ChompNewline(path);
    ChompFront(h, path + "\n");
  }

  lemma HeaderParts(address: string, tail: string)
    ensures "proc_maps=" + address + ":" + tail == "proc_maps" + "=" + (address + ":" + tail)
  {
    assert "proc_maps=" == "proc_maps" + "=";
  }

  /** The rewritten line is the directive that a configuration file would contain. */
  lemma SplitOfHeader(addr: nat, path: string)
    requires path != [] && path[0] == '/'
    ensures Split(Header(addr) + (path + "\n")) == Assign("proc_maps", MappingText(Mapping(addr, Chomp(path))))
  {
    var right := AltHex(addr) + ":" + (path + "\n");
    MapsKeywordIsPlain();
    OneWord("proc_maps");
    HeaderParts(AltHex(addr), path + "\n");
    ValueTrims(addr, path);
    SplitParts("proc_maps", right, "proc_maps", right);
  }

  lemma {:induction false} ChompFront(a: string, s: string)
    requires Chomp(s) != []
    ensures Chomp(a + s) == a + Chomp(s)
  {
    var w := a + s;
    if IsSpace(s[|s| - 1]) {
      assert w[..|w| - 1] == a + s[..|s| - 1];
      ChompFront(a, s[..|s| - 1]);
      assert Chomp(s[..|s| - 1]) == Chomp(s);
      assert Chomp(w[..|w| - 1]) == Chomp(w);
    }
  }

  predicate EndsIn(whole: string, tail: string) {
    |tail| <= |whole| && whole[|whole| - |tail|..] == tail
  }

  lemma EndsFurther(a: string, g: nat, rest: string, tail: string)
    requires EndsIn(rest, tail)
    ensures EndsIn(a + (Spaces(g) + rest), tail)
  {
  }

  lemma OffsetEndsInPath(l: MapsLine)
    requires |l.gaps| == 5
    ensures EndsIn(FromOffset(l), FromPath(l))
  {
    assert FromPath(l)[0..] == FromPath(l);
    EndsFurther(l.inode, l.gaps[4], FromPath(l), FromPath(l));
    EndsFurther(l.device, l.gaps[3], FromInode(l), FromPath(l));
    EndsFurther(l.offset, l.gaps[2], FromDevice(l), FromPath(l));
  }

  lemma LineEndsInPath(l: MapsLine)
    requires |l.gaps| == 5
    ensures EndsIn(LineText(l), FromPath(l))
  {
    var tail, rest := FromPath(l), FromOffset(l);
    OffsetEndsInPath(l);
    EndsFurther(l.perms, l.gaps[1], rest, tail);
    EndsFurther(l.end, l.gaps[0], FromPerms(l), tail);
    EndsFurther("-", 0, FromEnd(l), tail);
    assert Spaces(0) + FromEnd(l) == FromEnd(l);
    EndsFurther(l.start, 0, "-" + FromEnd(l), tail);
    assert Spaces(0) + ("-" + FromEnd(l)) == "-" + FromEnd(l);
  }

  /** The table has the option proc_maps at index i. */
  ghost predicate HasMaps(t: Table, i: nat) {
    GoodTable(t) && i < |t| && t[i].name == "proc_maps" && t[i].kind == MapMulti
  }

  lemma ApplyHeader(t: Table, c: Conf, i: nat, addr: nat, path: string)
    requires HasMaps(t, i) && Typed(t, c) && path != [] && path[0] == '/' && addr <= UINTMAX
    ensures Apply(t, c, Header(addr) + (path + "\n")) ==
            (c[i := Maps(c[i].m + [Mapping(Clamp(addr), Chomp(path))])], true)
  {
    SplitOfHeader(addr, path);
    FindIs(t, i);
    MappingReads(Mapping(addr, Chomp(path)), c[i]);
  }

  lemma Unlisted(t: Table, c: Conf, line: string, scan: Option<Scan>)
    requires Typed(t, c) && (scan.Some? ==> scan.value.file < |line| && !Executable(scan.value))
    ensures ScannedResult(t, c, line, scan) == (c, GoesOn)
  {
  }

  lemma ListedScan(t: Table, c: Conf, i: nat, line: string, scan: Option<Scan>, path: string)
    requires HasMaps(t, i) && Typed(t, c) && path != [] && path[0] == '/'
    requires scan.Some? && Executable(scan.value) && scan.value.addr <= UINTMAX
    requires |Header(scan.value.addr)| < scan.value.file < |line| && line[scan.value.file..] == path + "\n"
    ensures ScannedResult(t, c, line, scan) ==
            (c[i := Maps(c[i].m + [Mapping(Clamp(scan.value.addr), Chomp(path))])], GoesOn)
  {
    ApplyHeader(t, c, i, scan.value.addr, path);
  }

  lemma LineResultFor(t: Table, c: Conf, i: nat, l: MapsLine, line: string, scan: Option<Scan>)
    requires HasMaps(t, i) && Typed(t, c) && WellFormed(l) && line == LineText(l)
    requires if l.path == [] then scan.None? else Found(scan, Value(l.start, 16), l.perms[2], PathAt(l), l.path[0])
    ensures ScannedResult(t, c, line, scan) == (c[i := Maps(c[i].m + MappingOf(l))], GoesOn)
  {
    if Listed(l) {
      HeaderBeforePath(l);
      LineEndsInPath(l);
      ListedScan(t, c, i, line, scan, l.path);
    } else {
      Unlisted(t, c, line, scan);
      NothingAdded(c, i);
    }
  }

  /** One well-formed line adds its mapping, or nothing. */
  lemma LineResultOf(t: Table, c: Conf, i: nat, l: MapsLine)
    requires HasMaps(t, i) && Typed(t, c) && WellFormed(l)
    ensures LineResult(t, c, LineText(l)) == (c[i := Maps(c[i].m + MappingOf(l))], GoesOn)
  {
    ScanLineOf(l);
    LineResultFor(t, c, i, l, LineText(l), ScanLine(LineText(l)));
  }

  lemma NothingAdded(c: Conf, i: nat)
    requires i < |c| && c[i].Maps?
    ensures c[i := Maps(c[i].m + [])] == c
  {
    assert c[i].m + [] == c[i].m;
  }

  /** The whole file: the assertion always holds, no line is refused, and proc_maps gains
      exactly the executable mappings with a path, in file order. */
  lemma {:induction false} FileResultOf(t: Table, c: Conf, i: nat, ls: seq<MapsLine>)
    requires HasMaps(t, i) && Typed(t, c) && forall k :: 0 <= k < |ls| ==> WellFormed(ls[k])
    ensures FileResult(t, c, Texts(ls)) == (c[i := Maps(c[i].m + Mappings(ls))], GoesOn)
    decreases |ls|
  {
    if ls == [] {
      NothingAdded(c, i);
    } else {
      var next := c[i := Maps(c[i].m + MappingOf(ls[0]))];
      LineResultOf(t, c, i, ls[0]);
      FirstLine(t, c, LineText(ls[0]), Texts(ls[1..]), next);
      FileResultOf(t, next, i, ls[1..]);
      AddTwice(c, i, MappingOf(ls[0]), Mappings(ls[1..]));
    }
  }

  lemma AddTwice(c: Conf, i: nat, a: seq<Mapping>, b: seq<Mapping>)
    requires i < |c| && c[i].Maps?
    ensures var next := c[i := Maps(c[i].m + a)]; next[i := Maps(next[i].m + b)] == c[i := Maps(c[i].m + (a + b))]
  {
    assert c[i].m + a + b == c[i].m + (a + b);
  }

  lemma FirstLine(t: Table, c: Conf, line: string, rest: seq<string>, next: Conf)
    requires Typed(t, c) && LineResult(t, c, line) == (next, GoesOn)
    ensures FileResult(t, c, [line] + rest) == FileResult(t, next, rest)
  {
    assert ([line] + rest)[1..] == rest;
  }

  // ---------- the text of a whole file ----------

  lemma LineBehind(a: string, rest: string)
    requires '\n' !in a && IsLine(rest)
    ensures IsLine(a + rest)
  {
    assert (a + rest)[..|a + rest| - 1] == a + rest[..|rest| - 1];
  }

  lemma NoNewlineInDigits(s: string, b: nat)
    requires AllDigits(s, b)
    ensures '\n' !in s
  {
    forall k | 0 <= k < |s| ensures s[k] != '\n' {
      assert IsDigit(s[k], b);
    }
  }

  lemma NoNewlineInWord(s: string)
    requires Word(s)
    ensures '\n' !in s
  {
    forall k | 0 <= k < |s| ensures s[k] != '\n' {
      assert !IsSpace(s[k]);
    }
  }

  /** A field that is no path, and the spaces behind it. */
  lemma FieldBehind(field: string, n: nat, rest: string)
    requires '\n' !in field && IsLine(rest)
    ensures IsLine(field + (Spaces(n) + rest))
  {
    LineBehind(Spaces(n), rest);
    LineBehind(field, Spaces(n) + rest);
  }

  lemma OffsetIsLine(l: MapsLine)
    requires WellFormed(l)
    ensures IsLine(FromOffset(l))
  {
    assert FromPath(l)[..|FromPath(l)| - 1] == l.path;
    NoNewlineInDigits(l.inode, 10);
    FieldBehind(l.inode, l.gaps[4], FromPath(l));
    NoNewlineInWord(l.device);
    FieldBehind(l.device, l.gaps[3], FromInode(l));
    NoNewlineInDigits(l.offset, 16);
    FieldBehind(l.offset, l.gaps[2], FromDevice(l));
  }

  lemma TextIsLine(l: MapsLine)
    requires WellFormed(l)
    ensures IsLine(LineText(l))
  {
    OffsetIsLine(l);
    NoNewlineInWord(l.perms);
    FieldBehind(l.perms, l.gaps[1], FromOffset(l));
    NoNewlineInDigits(l.end, 16);
    FieldBehind(l.end, l.gaps[0], FromPerms(l));
    LineBehind("-", FromEnd(l));
    NoNewlineInDigits(l.start, 16);
    LineBehind(l.start, "-" + FromEnd(l));
  }

  lemma {:induction false} TextsAreLines(ls: seq<MapsLine>, max: nat)
    requires forall k :: 0 <= k < |ls| ==> WellFormed(ls[k]) && |LineText(ls[k])| <= max
    ensures |Texts(ls)| == |ls|
    ensures forall k :: 0 <= k < |ls| ==> IsLine(Texts(ls)[k]) && |Texts(ls)[k]| <= max
  {
    if ls != [] {
      TextIsLine(ls[0]);
      TextsAreLines(ls[1..], max);
    }
  }

  /** The same for the text of the file, if its lines fit in the buffer. */
  lemma FileTextResultOf(t: Table, c: Conf, i: nat, ls: seq<MapsLine>, max: nat)
    requires HasMaps(t, i) && Typed(t, c) && max > 0
    requires forall k :: 0 <= k < |ls| ==> WellFormed(ls[k]) && |LineText(ls[k])| <= max
    ensures FileResult(t, c, Pieces(Concat(Texts(ls)), max)) == (c[i := Maps(c[i].m + Mappings(ls))], GoesOn)
  {
    TextsAreLines(ls, max);
    PiecesOfLines(Texts(ls), max);
    FileResultOf(t, c, i, ls);
  }

  // ---------- a line for which the assertion fails ----------

  /** A line whose device is squeezed against its offset: "1-2r-xp0s 0/x" */
  function Squeezed(): string {
    "1" + ("-" + SqueezedEnd())
  }

  function SqueezedEnd(): string {
    "2" + SqueezedPerms()
  }

  function SqueezedPerms(): string {
    "r-xp" + SqueezedOffset()
  }

  function SqueezedOffset(): string {
    "0" + SqueezedDevice()
  }

  function SqueezedDevice(): string {
    "s" + SqueezedInode()
  }

  function SqueezedInode(): string {
    " " + ("0" + "/x\n")
  }

  /** The assertion needs the separators: on this line the header would reach the path. */
  lemma AssertionNeedsSeparators(t: Table, c: Conf)
    requires Typed(t, c)
    ensures LineResult(t, c, Squeezed()) == (c, Aborted)
  {
    var tail := SqueezedOffset();
    assert |Squeezed()| == 14 && SqueezedPerms()[4..] == tail && SqueezedPerms()[2] == 'x';
    SqueezedTail();
    SqueezedRange();
    ScanPermsOf(14, 1, SqueezedPerms(), tail);
    SqueezedAborts(t, c, Squeezed(), ScanLine(Squeezed()));
  }

  lemma SqueezedAborts(t: Table, c: Conf, line: string, scan: Option<Scan>)
    requires Typed(t, c) && Found(scan, 1, 'x', 11, '/') && |line| == 14
    ensures ScannedResult(t, c, line, scan) == (c, Aborted)
  {
    assert |Header(1)| == 14;
  }

  lemma TailParts(s: string, s1: string, s2: string, s3: string)
    requires ScanHex(s).Some? && ScanHex(s).value.1 == s1
    requires ScanWord(s1).Some? && ScanWord(s1).value == s2
    requires ScanDecimal(s2).Some? && ScanDecimal(s2).value == s3 && Strip(s3) != []
    ensures ScanTail(s).Some? && ScanTail(s).value == Strip(s3)
  {
  }

  lemma SqueezedTail()
    ensures ScanTail(SqueezedOffset()).Some? && ScanTail(SqueezedOffset()).value == "/x\n"
  {
    SqueezedHex("0", SqueezedDevice());
    SqueezedWord();
    SqueezedDecimal();
    NoSpaceAtFront("/x\n");
    TailParts(SqueezedOffset(), SqueezedDevice(), SqueezedInode(), "/x\n");
  }

  lemma SqueezedHex(digit: string, rest: string)
    requires |digit| == 1 && IsDigit(digit[0], 16)
    requires rest != [] && !IsDigit(rest[0], 16) && rest[0] != 'x' && rest[0] != 'X'
    ensures ScanHex(digit + rest).Some? && ScanHex(digit + rest).value.1 == rest
    ensures ScanHex(digit + rest).value.0 == DigitValue(digit[0])
  {
    assert digit + rest == Spaces(0) + (digit + rest) && AllDigits(digit, 16);
    ValueOfSnoc([], digit[0], 16);
    assert [] + [digit[0]] == digit && Value([], 16) == 0;
    ScanHexOf(0, digit, rest);
  }

  lemma SqueezedWord()
    ensures ScanWord(SqueezedDevice()).Some? && ScanWord(SqueezedDevice()).value == SqueezedInode()
  {
    assert SqueezedDevice() == Spaces(0) + ("s" + SqueezedInode()) && Word("s");
    ScanWordOf(0, "s", SqueezedInode());
  }

  lemma SqueezedDecimal()
    ensures ScanDecimal(SqueezedInode()).Some? && ScanDecimal(SqueezedInode()).value == "/x\n"
  {
    assert SqueezedInode() == Spaces(1) + ("0" + "/x\n") && AllDigits("0", 10);
    ScanDecimalOf(1, "0", "/x\n");
  }

  lemma SqueezedStart()
    ensures var r := ScanHex(Squeezed()); r.Some? && r.value.0 == 1 && r.value.1 == "-" + SqueezedEnd()
  {
    SqueezedHex("1", "-" + SqueezedEnd());
  }

  lemma SqueezedSecond()
    ensures ScanHex(SqueezedEnd()).Some? && ScanHex(SqueezedEnd()).value.1 == SqueezedPerms()
    ensures Strip(SqueezedPerms()) == SqueezedPerms()
  {
    assert SqueezedPerms()[0] == 'r';
    SqueezedHex("2", SqueezedPerms());
    NoSpaceAtFront(SqueezedPerms());
  }

  lemma SqueezedRange()
    ensures var r := ScanRange(Squeezed()); r.Some? && r.value.0 == 1 && r.value.1 == SqueezedPerms()
  {
    SqueezedStart();
    SqueezedSecond();
    RangeParts(Squeezed(), 1, SqueezedEnd(), SqueezedPerms());
  }
}
