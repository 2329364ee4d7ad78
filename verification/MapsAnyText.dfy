/** What the loop over /proc/PID/maps does to lines of any layout. */
module MapsAnyText {
  import opened Basics
  import opened Config
  import opened ConfigPrinting
  import opened ConfigRoundTrip
  import opened MapsFile
  import opened MapsProperties

  // ---------- where the path is ----------

  lemma EndsInBoth(a: string, b: string, c: string)
    requires EndsIn(a, b) && EndsIn(b, c)
    ensures EndsIn(a, c)
  {
    assert a[|a| - |c|..] == a[|a| - |b|..][|b| - |c|..];
  }

  lemma HexLeaves(s: string)
    requires ScanHex(s).Some?
    ensures EndsIn(s, ScanHex(s).value.1)
  {
    var w := Strip(s);
    var u := Unsigned(w);
    var d := Unprefixed(u);
    assert EndsIn(s, w) && EndsIn(w, u) && EndsIn(u, d) && EndsIn(d, d[DigitRun(d, 16)..]);
    EndsInBoth(s, w, u);
    EndsInBoth(s, u, d);
    EndsInBoth(s, d, d[DigitRun(d, 16)..]);
  }

  lemma DecimalLeaves(s: string)
    requires ScanDecimal(s).Some?
    ensures EndsIn(s, ScanDecimal(s).value)
  {
    var w := Strip(s);
    var d := Unsigned(w);
    assert EndsIn(s, w) && EndsIn(w, d) && EndsIn(d, d[DigitRun(d, 10)..]);
    EndsInBoth(s, w, d);
    EndsInBoth(s, d, d[DigitRun(d, 10)..]);
  }

  lemma WordLeaves(s: string)
    requires ScanWord(s).Some?
    ensures EndsIn(s, ScanWord(s).value)
  {
    var w := Strip(s);
    assert EndsIn(s, w) && EndsIn(w, w[WordLen(w)..]);
    EndsInBoth(s, w, w[WordLen(w)..]);
  }

  lemma TailLeaves(s: string)
    requires ScanTail(s).Some?
    ensures EndsIn(s, ScanTail(s).value) && !IsSpace(ScanTail(s).value[0])
  {
    var s1 := ScanHex(s).value.1;
    var s2 := ScanWord(s1).value;
    var s3 := ScanDecimal(s2).value;
    HexLeaves(s);
    WordLeaves(s1);
    DecimalLeaves(s2);
    EndsInBoth(s, s1, s2);
    EndsInBoth(s, s2, s3);
    assert EndsIn(s3, Strip(s3));
    EndsInBoth(s, s3, Strip(s3));
  }

  lemma RangeLeaves(b: string)
    requires ScanRange(b).Some?
    ensures EndsIn(b, ScanRange(b).value.1)
  {
    var s1 := ScanHex(b).value.1;
    var s2 := ScanHex(s1[1..]).value.1;
    HexLeaves(b);
    HexLeaves(s1[1..]);
    assert EndsIn(s1, s1[1..]) && EndsIn(s2, Strip(s2));
    EndsInBoth(b, s1, s1[1..]);
    EndsInBoth(b, s1[1..], s2);
    EndsInBoth(b, s2, Strip(s2));
  }

  /** In whatever line the scan comes to its end, the path begins at the offset that it found. */
  lemma PathFound(b: string)
    requires ScanLine(b).Some?
    ensures var s := ScanLine(b).value; s.first == b[s.file] && !IsSpace(s.first)
  {
    var perms := ScanRange(b).value.1;
    var path := ScanTail(perms[4..]).value;
    RangeLeaves(b);
    TailLeaves(perms[4..]);
    assert EndsIn(perms, perms[4..]);
    EndsInBoth(b, perms, perms[4..]);
    EndsInBoth(b, perms[4..], path);
  }

  // ---------- what is added ----------

  lemma ValueTrimsAny(addr: nat, path: string)
    requires path != [] && path[0] == '/'
    ensures var right := AltHex(addr) + ":" + path;
            Strip(right) == right && right != [] && Chomp(right) == MappingText(Mapping(addr, Chomp(path)))
  {
    var h := AltHex(addr) + ":";
    assert h[0] == '0' && (h + path)[0] == '0';
    NoSpaceAtFront(h + path);
    ChompLenIs(path);
    ChompFront(h, path);
  }

  lemma SplitOfAnyHeader(addr: nat, path: string)
    requires path != [] && path[0] == '/'
    ensures Split(Header(addr) + path) == Assign("proc_maps", MappingText(Mapping(addr, Chomp(path))))
  {
    var right := AltHex(addr) + ":" + path;
    MapsKeywordIsPlain();
    OneWord("proc_maps");
    HeaderParts(AltHex(addr), path);
    ValueTrimsAny(addr, path);
    SplitParts("proc_maps", right, "proc_maps", right);
  }

  lemma ApplyAnyHeader(t: Table, c: Conf, i: nat, addr: nat, path: string)
    requires HasMaps(t, i) && Typed(t, c) && path != [] && path[0] == '/' && addr <= UINTMAX
    ensures Apply(t, c, Header(addr) + path) ==
            (c[i := Maps(c[i].m + [Mapping(Clamp(addr), Chomp(path))])], true)
  {
    SplitOfAnyHeader(addr, path);
    FindIs(t, i);
    MappingReads(Mapping(addr, Chomp(path)), c[i]);
  }

  /** The mappings of files, with addresses below 2^63. */
  predicate OfFiles(ms: seq<Mapping>) {
    forall k :: 0 <= k < |ms| ==> ms[k].file != [] && ms[k].file[0] == '/' && ms[k].addr <= LONG_MAX
  }

  /** proc_maps gains these mappings, nothing else changes, and no line is refused. */
  ghost predicate Gains(c: Conf, i: nat, r: (Conf, Status), ms: seq<Mapping>) {
    OfFiles(ms) && r.1 != Refused && i < |c| && c[i].Maps? && r.0 == c[i := Maps(c[i].m + ms)]
  }

  lemma GainsNothing(c: Conf, i: nat, status: Status)
    requires i < |c| && c[i].Maps? && status != Refused
    ensures Gains(c, i, (c, status), [])
  {
    NothingAdded(c, i);
  }

  lemma ListedAny(t: Table, c: Conf, i: nat, b: string, scan: Scan) returns (m: Mapping)
    requires HasMaps(t, i) && Typed(t, c) && Executable(scan) && scan.addr <= UINTMAX
    requires |Header(scan.addr)| < scan.file < |b| && scan.first == b[scan.file]
    ensures m.file == Chomp(b[scan.file..])
    ensures Gains(c, i, ScannedResult(t, c, b, Some(scan)), [m])
  {
    var path := b[scan.file..];
    ApplyAnyHeader(t, c, i, scan.addr, path);
    ChompLenIs(path);
    m := Mapping(Clamp(scan.addr), Chomp(path));
  }

  lemma AnyScan(t: Table, c: Conf, i: nat, b: string, scan: Option<Scan>) returns (ms: seq<Mapping>)
    requires HasMaps(t, i) && Typed(t, c)
    requires scan.Some? ==>
               scan.value.file < |b| && scan.value.addr <= UINTMAX && scan.value.first == b[scan.value.file]
    ensures Gains(c, i, ScannedResult(t, c, b, scan), ms) && |ms| <= 1
    ensures ms != [] ==> scan.Some? && Executable(scan.value) && ms[0].file == Chomp(b[scan.value.file..])
  {
    if scan.Some? && Executable(scan.value) && |Header(scan.value.addr)| < scan.value.file {
      var m := ListedAny(t, c, i, b, scan.value);
      ms := [m];
    } else {
      GainsNothing(c, i, ScannedResult(t, c, b, scan).1);
      ms := [];
    }
  }

  /** One line: it adds nothing, or the file that its text ends in. */
  lemma AnyLine(t: Table, c: Conf, i: nat, b: string) returns (ms: seq<Mapping>)
    requires HasMaps(t, i) && Typed(t, c)
    ensures Gains(c, i, LineResult(t, c, b), ms) && |ms| <= 1
    ensures ms != [] ==>
              ScanLine(b).Some? && Executable(ScanLine(b).value) && ms[0].file == Chomp(b[ScanLine(b).value.file..])
  {
    var scan := ScanLine(b);
    if scan.Some? {
      PathFound(b);
    }
    ms := AnyScan(t, c, i, b, scan);
  }

  lemma GainsBoth(c: Conf, i: nat, next: Conf, a: seq<Mapping>, r: (Conf, Status), b: seq<Mapping>)
    requires Gains(c, i, (next, GoesOn), a) && Gains(next, i, r, b)
    ensures Gains(c, i, r, a + b)
  {
    AddTwice(c, i, a, b);
  }

  /** Whatever /proc/PID/maps holds, parse_line() refuses none of the rewritten lines, nothing but
      proc_maps changes, and what it gains are files with addresses that can be printed; not more
      than one for each line. */
  lemma {:induction false} AnyFile(t: Table, c: Conf, i: nat, lines: seq<string>) returns (ms: seq<Mapping>)
    requires HasMaps(t, i) && Typed(t, c)
    ensures Gains(c, i, FileResult(t, c, lines), ms) && |ms| <= |lines|
    decreases |lines|
  {
    if lines == [] {
      GainsNothing(c, i, GoesOn);
      return [];
    }
    var first := AnyLine(t, c, i, lines[0]);
    var (next, status) := LineResult(t, c, lines[0]);
    if status != GoesOn {
      return first;
    }
    var more := AnyFile(t, next, i, lines[1..]);
    GainsBoth(c, i, next, first, FileResult(t, next, lines[1..]), more);
    ms := first + more;
  }
}
