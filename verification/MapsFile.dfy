/** read_proc_info()'s loop over /proc/PID/maps: every line is scanned, rewritten in its own
    buffer to a "proc_maps=" line, and given to parse_line(). */
module MapsFile {
  import opened Basics
  import opened Text
  import opened Config
  import opened ConfigPrinting
  import opened ConfigParser
  import opened LineReader

  // ---------- sscanf() ----------

  const UINTMAX: nat := 0xffff_ffff_ffff_ffff

  /** What the format assigns: the address, the third permission, the offset and the first
      character of the path. */
  datatype Scan = Scan(addr: nat, exec: char, file: nat, first: char)

  /** An optional sign. */
  function Unsigned(s: string): string {
    if s != [] && (s[0] == '-' || s[0] == '+') then s[1..] else s
  }

  /** An optional "0x" before a digit. */
  function Unprefixed(s: string): string {
    if |s| >= 3 && s[0] == '0' && (s[1] == 'x' || s[1] == 'X') && IsDigit(s[2], 16) then s[2..] else s
  }

  /** "%jx", behind white space: the value and what remains. */
  function ScanHex(s: string): (r: Option<(nat, string)>)
    ensures r.Some? ==> r.value.0 <= UINTMAX && |r.value.1| < |s|
  {
    var w := Strip(s);
    var d := Unprefixed(Unsigned(w));
    var n := DigitRun(d, 16);
    if n == 0 then None
    else
      var v := Value(d[..n], 16);
      var u := if v > UINTMAX then UINTMAX else v;
      Some((if u > 0 && w[0] == '-' then UINTMAX + 1 - u else u, d[n..]))
  }

  /** "%*d" */
  function ScanDecimal(s: string): (r: Option<string>)
    ensures r.Some? ==> |r.value| < |s|
  {
    var d := Unsigned(Strip(s));
    var n := DigitRun(d, 10);
    if n == 0 then None else Some(d[n..])
  }

  /** "%*s" */
  function ScanWord(s: string): (r: Option<string>)
    ensures r.Some? ==> |r.value| < |s|
  {
    var w := Strip(s);
    if w == [] then None else Some(w[WordLen(w)..])
  }

  /** "%*x %*s %*d %n%c", from behind the permissions: the path and what follows it. */
  function ScanTail(s: string): (r: Option<string>)
    ensures r.Some? ==> 0 < |r.value| < |s|
  {
    match ScanHex(s)
    case None => None
    case Some((_, s1)) =>
      match ScanWord(s1)
      case None => None
      case Some(s2) =>
        match ScanDecimal(s2)
        case None => None
        case Some(s3) =>
          if Strip(s3) == [] then None else Some(Strip(s3))
  }

  /** "%jx-%*x" and the white space behind it: the address and what remains. */
  function ScanRange(b: string): (r: Option<(nat, string)>)
    ensures r.Some? ==> r.value.0 <= UINTMAX && |r.value.1| < |b|
  {
    match ScanHex(b)
    case None => None
    case Some((addr, s1)) =>
      if s1 == [] || s1[0] != '-' then None
      else
        match ScanHex(s1[1..])
        case None => None
        case Some((_, s2)) =>
          Some((addr, Strip(s2)))
  }

  /** "%*c%*c%c%*c" and the rest, in a line of `size` characters. */
  function ScanPerms(size: nat, addr: nat, perms: string): (r: Option<Scan>)
    requires |perms| < size && addr <= UINTMAX
    ensures r.Some? ==> r.value.file < size && r.value.addr <= UINTMAX
  {
    if |perms| < 4 then None
    else
      match ScanTail(perms[4..])
      case None => None
      case Some(path) => Some(Scan(addr, perms[2], size - |path|, path[0]))
  }

  /** sscanf(b, "%jx-%*x %*c%*c%c%*c %*x %*s %*d %n%c%*[^\n]", ...) if it returns 3. */
  function ScanLine(b: string): (r: Option<Scan>)
    ensures r.Some? ==> r.value.file < |b| && r.value.addr <= UINTMAX
  {
    match ScanRange(b)
    case None => None
    case Some((addr, perms)) => ScanPerms(|b|, addr, perms)
  }

  // ---------- one line of the file ----------

  /** snprintf(buf, sizeof buf, "proc_maps=%#jx:", addr) */
  function Header(addr: nat): string {
    "proc_maps=" + AltHex(addr) + ":"
  }

  /** The loop goes on, returns an error, or dies in its assertion. */
  datatype Status = GoesOn | Refused | Aborted

  predicate Executable(s: Scan) {
    s.exec == 'x' && s.first == '/'
  }

  /** One line: the configuration afterwards. */
  function LineResult(t: Table, c: Conf, line: string): (r: (Conf, Status))
    requires Typed(t, c)
    ensures Typed(t, r.0)
  {
    ScannedResult(t, c, line, ScanLine(line))
  }

  function ScannedResult(t: Table, c: Conf, line: string, scan: Option<Scan>): (r: (Conf, Status))
    requires Typed(t, c) && (scan.Some? ==> scan.value.file < |line|)
    ensures Typed(t, r.0)
  {
    match scan
    case None => (c, GoesOn)
    case Some(s) =>
      if !Executable(s) then (c, GoesOn)
      else if !(|Header(s.addr)| < s.file) then (c, Aborted)
      else
        var (c', ok) := Apply(t, c, Header(s.addr) + line[s.file..]);
        (c', if ok then GoesOn else Refused)
  }

  function FileResult(t: Table, c: Conf, lines: seq<string>): (r: (Conf, Status))
    requires Typed(t, c)
    ensures Typed(t, r.0)
    decreases |lines|
  {
    if lines == [] then (c, GoesOn)
    else
      var (c', status) := LineResult(t, c, lines[0]);
      if status == GoesOn then FileResult(t, c', lines[1..]) else (c', status)
  }

  // ---------- in the buffer ----------

  /** memmove() of a string towards the front of the same buffer. */
  method MoveDown(buf: array<char>, to: nat, from: nat, ghost s: string)
    requires to < from && Holds(buf[..], from, s)
    modifies buf
    ensures buf[..to] == old(buf[..to]) && Holds(buf[..], to, s)
  {
    var n := StrLenAt(buf, from, s);
    ghost var was := buf[..];
    var k := 0;
    while k < n + 1
      invariant k <= n + 1
      invariant buf[..to] == was[..to] && buf[to..to + k] == was[from..from + k]
      invariant buf[from + k..] == was[from + k..]
    {
      ghost var now := buf[..];
      assert buf[from + k] == buf[from + k..][0] == was[from + k];
      buf[to + k] := buf[from + k];
      assert buf[from + k + 1..] == now[from + k..][1..] == was[from + k + 1..];
      assert buf[to..to + k + 1] == buf[to..to + k] + [was[from + k]];
      k := k + 1;
    }
    assert was[from..from + n + 1] == was[from..from + n] + [NUL];
    assert buf[to..to + n + 1][..n] == buf[to..to + n] && buf[to..to + n + 1][n] == buf[to + n];
  }

  /** The in-buffer rewrite: the header is printed over the front of the line, and the path is
      moved up behind it. Fails where the assertion fails. */
  method Rewrite(buf: array<char>, addr: nat, file: nat, ghost s: string) returns (ok: bool)
    requires Holds(buf[..], 0, s) && file < |s| && |Header(addr)| < buf.Length
    modifies buf
    ensures ok <==> |Header(addr)| < file
    ensures ok ==> Holds(buf[..], 0, Header(addr) + s[file..])
  {
    var header := Header(addr);
    ghost var was := buf[..];
    HoldsSuffix(was, 0, s, file);
    MemCpy(buf, 0, header + [NUL]);
    if !(|header| < file) {
      return false;
    }
    assert buf[..] == buf[0..] && SameOutside(was, buf[..], 0, |header| + 1);
    HoldsOutside(was, buf[..], 0, |header| + 1, file, s[file..]);
    assert buf[..|header|] == header;
    MoveDown(buf, |header|, file, s[file..]);
    assert NUL !in header by {
      HeaderIsPlain(addr);
    }
    JoinHolds(buf[..], header, s[file..]);
    ok := true;
  }

  lemma HeaderIsPlain(addr: nat)
    ensures NUL !in Header(addr)
  {
    var d := Digits(addr, 16);
    assert forall k :: 0 <= k < |d| ==> IsDigit(d[k], 16);
  }

  lemma JoinHolds(b: seq<char>, a: string, s: string)
    requires |a| <= |b| && b[..|a|] == a && NUL !in a && Holds(b, |a|, s)
    ensures Holds(b, 0, a + s)
  {
    assert b[0..|a| + |s|] == b[..|a|] + b[|a|..|a| + |s|];
  }

  /** What comes of a text from here on, in configuration c, if the loop goes on. */
  ghost predicate Leads(t: Table, c: Conf, status: Status, text: string, max: nat, end: (Conf, Status)) {
    Typed(t, c) && max > 0 && end == if status == GoesOn then FileResult(t, c, Pieces(text, max)) else (c, status)
  }

  lemma LeadsOn(t: Table, c: Conf, text: string, max: nat)
    requires Typed(t, c) && max > 0
    ensures true == Leads(t, c, GoesOn, text, max, FileResult(t, c, Pieces(text, max)))
  {
  }

  lemma LeadsTo(t: Table, c: Conf, status: Status, text: string, max: nat, end: (Conf, Status))
    requires Leads(t, c, status, text, max, end) && (status == GoesOn ==> text == [])
    ensures end == (c, status)
  {
  }

  lemma FirstPiece(t: Table, c: Conf, text: string, max: nat, end: (Conf, Status), next: Conf, status: Status)
    requires Leads(t, c, GoesOn, text, max, end) && text != []
    requires (next, status) == LineResult(t, c, text[..LineLen(text, max)])
    ensures true == Leads(t, next, status, text[LineLen(text, max)..], max, end)
  {
    var n := LineLen(text, max);
    assert Pieces(text, max)[0] == text[..n] && Pieces(text, max)[1..] == Pieces(text[n..], max);
  }

  lemma NoNulBehind(s: string, n: nat)
    requires n <= |s| && NUL !in s
    ensures NUL !in s[n..]
  {
    assert forall c :: c in s[n..] ==> c in s;
  }

  /** One line, or a piece of a line that does not fit: it is scanned in the buffer. */
  method NextPiece(st: ConfigState, buf: array<char>, text: string) returns (status: Status, n: nat)
    requires st.Valid() && buf.Length >= 64 && NUL !in text
    modifies st, st.lists, st.lists.live, buf
    ensures st.Valid() && fresh(st.lists.live - old(st.lists.live))
    ensures n == LineLen(text, buf.Length - 1)
    ensures (st.conf, status) == LineResult(st.table, old(st.conf), text[..n])
  {
    n := Fgets(buf, text);
    var line := text[..n];
    status := UseScan(st, buf, ScanLine(line), line);
  }

  /** One round of the loop, whatever it comes to in the end. */
  method NextRound(st: ConfigState, buf: array<char>, text: string, ghost end: (Conf, Status))
    returns (status: Status, rest: string)
    requires st.Valid() && buf.Length >= 64 && NUL !in text && text != []
    requires true == Leads(st.table, st.conf, GoesOn, text, buf.Length - 1, end)
    modifies st, st.lists, st.lists.live, buf
    ensures st.Valid() && fresh(st.lists.live - old(st.lists.live))
    ensures |rest| < |text| && NUL !in rest
    ensures true == Leads(st.table, st.conf, status, rest, buf.Length - 1, end)
  {
    ghost var c := st.conf;
    var n;
    status, n := NextPiece(st, buf, text);
    FirstPiece(st.table, c, text, buf.Length - 1, end, st.conf, status);
    NoNulBehind(text, n);
    rest := text[n..];
  }

  /** The loop over the maps file. */
  method ReadMaps(st: ConfigState, buf: array<char>, content: string) returns (status: Status)
    requires st.Valid() && buf.Length >= 64 && NUL !in content
    modifies st, st.lists, st.lists.live, buf
    ensures st.Valid() && fresh(st.lists.live - old(st.lists.live))
    ensures (st.conf, status) == FileResult(st.table, old(st.conf), Pieces(content, buf.Length - 1))
  {
    var rest := content;
    ghost var end := FileResult(st.table, st.conf, Pieces(content, buf.Length - 1));
    LeadsOn(st.table, st.conf, rest, buf.Length - 1);
    status := GoesOn;
    while status == GoesOn && rest != []
      invariant st.Valid() && fresh(st.lists.live - old(st.lists.live)) && NUL !in rest
      invariant true == Leads(st.table, st.conf, status, rest, buf.Length - 1, end)
      decreases |rest|
    {
      status, rest := NextRound(st, buf, rest, end);
    }
    LeadsTo(st.table, st.conf, status, rest, buf.Length - 1, end);
  }

  method UseScan(st: ConfigState, buf: array<char>, scan: Option<Scan>, ghost line: string) returns (status: Status)
    requires st.Valid() && buf.Length >= 64 && Holds(buf[..], 0, line)
    requires scan.Some? ==> scan.value.file < |line| && scan.value.addr <= UINTMAX
    modifies st, st.lists, st.lists.live, buf
    ensures st.Valid() && fresh(st.lists.live - old(st.lists.live))
    ensures (st.conf, status) == ScannedResult(st.table, old(st.conf), line, scan)
  {
    status := GoesOn;
    if scan != None && Executable(scan.value) {
      status := RewriteAndParse(st, buf, scan.value, line);
    }
  }

  method RewriteAndParse(st: ConfigState, buf: array<char>, scan: Scan, ghost line: string) returns (status: Status)
    requires st.Valid() && buf.Length >= 64 && Holds(buf[..], 0, line) && scan.file < |line| && scan.addr <= UINTMAX
    modifies st, st.lists, st.lists.live, buf
    ensures st.Valid() && fresh(st.lists.live - old(st.lists.live))
    ensures if |Header(scan.addr)| < scan.file
            then (st.conf, status) ==
                 var (c, ok) := Apply(st.table, old(st.conf), Header(scan.addr) + line[scan.file..]);
                 (c, if ok then GoesOn else Refused)
            else st.conf == old(st.conf) && status == Aborted
  {
    HeaderLength(scan.addr);
    var ok := Rewrite(buf, scan.addr, scan.file, line);
    if !ok {
      return Aborted;
    }
    ghost var text := Header(scan.addr) + line[scan.file..];
    HoldsCString(buf[..], 0, text);
    assert buf[..][0..] == buf[..];
    var rc := st.ParseLine(buf);
    status := if rc == 0 then GoesOn else Refused;
  }

  lemma HeaderLength(addr: nat)
    requires addr <= UINTMAX
    ensures |Header(addr)| <= 29
  {
    assert Power16(4) == 0x1_0000 && Power16(8) == 0x1_0000_0000;
    assert Power16(12) == 0x1_0000_0000_0000 && Power16(16) == UINTMAX + 1;
    DigitsBound(addr, 16);
  }

  lemma {:induction false} DigitsBound(n: nat, k: nat)
    requires k > 0 && n < Power16(k)
    ensures |Digits(n, 16)| <= k
  {
    if n >= 16 {
      DigitsBound(n / 16, k - 1);
    }
  }

  function Power16(k: nat): nat {
    if k == 0 then 1 else 16 * Power16(k - 1)
  }
}
