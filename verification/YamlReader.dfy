/**
 A reader for double-quoted scalars (YAML 1.2, sections 5.7 and 7.3.1) and for flow sequences
 of them (section 7.4.1), and the proof that it undoes what info.c writes. Line breaks inside
 a scalar and the escapes for characters above 255 are not read.
 */
module YamlReader {
  import opened Basics
  import opened Text
  import opened Yaml

  /** The single-letter escapes of section 5.7. */
  function EscapedLetter(c: char): Option<char> {
    match c
    case '0' => Some('\0')
    case 'a' => Some('\U{07}')
    case 'b' => Some('\U{08}')
    case 't' => Some('\t')
    case 'n' => Some('\n')
    case 'v' => Some('\U{0B}')
    case 'f' => Some('\U{0C}')
    case 'r' => Some('\r')
    case 'e' => Some('\U{1B}')
    case ' ' => Some(' ')
    case '"' => Some('"')
    case '/' => Some('/')
    case '\\' => Some('\\')
    case _ => None
  }

  /** One character of a double-quoted scalar: its value and its length. */
  function ReadChar(t: string): (r: Option<(char, nat)>)
    ensures r.Some? ==> 1 <= r.value.1 <= |t|
  {
    if t == [] || t[0] == '"' || t[0] < ' ' then None
    else if t[0] != '\\' then Some((t[0], 1))
    else if |t| >= 4 && t[1] == 'x' && IsDigit(t[2], 16) && IsDigit(t[3], 16) then
      Some(((DigitValue(t[2]) * 16 + DigitValue(t[3])) as char, 4))
    else if |t| >= 2 && EscapedLetter(t[1]).Some? then Some((EscapedLetter(t[1]).value, 2))
    else None
  }

  /** The text of a scalar up to its closing quote, and what follows the quote. */
  function ReadScalar(t: string): (r: Option<(string, string)>)
    ensures r.Some? ==> |r.value.1| < |t|
    decreases |t|
  {
    if t != [] && t[0] == '"' then Some(([], t[1..]))
    else
      match ReadChar(t)
      case None => None
      case Some((c, n)) =>
        match ReadScalar(t[n..])
        case None => None
        case Some((s, rest)) => Some(([c] + s, rest))
  }

  function SkipBlanks(t: string): (r: string)
    ensures |r| <= |t| && (r == [] || r[0] != ' ')
  {
    if t != [] && t[0] == ' ' then SkipBlanks(t[1..]) else t
  }

  /** The entries of a flow sequence from an opening quote on. */
  function ReadEntries(t: string): Option<(seq<string>, string)>
    decreases |t|
  {
    if t == [] || t[0] != '"' then None
    else
      match ReadScalar(t[1..])
      case None => None
      case Some((s, rest)) =>
        var more := SkipBlanks(rest);
        if more == [] then None
        else if more[0] == ']' then Some(([s], more[1..]))
        else if more[0] != ',' then None
        else
          match ReadEntries(SkipBlanks(more[1..]))
          case None => None
          case Some((ss, end)) => Some(([s] + ss, end))
  }

  function ReadFlowSequence(t: string): Option<(seq<string>, string)> {
    if t == [] || t[0] != '[' then None
    else
      var inner := SkipBlanks(t[1..]);
      if inner == [] then None
      else if inner[0] == ']' then Some(([], inner[1..]))
      else ReadEntries(inner)
  }

  // ---------- one scalar ----------

  lemma EscapeLength(c: char)
    requires Byte(c)
    ensures 1 <= |Escape(c)|
  {
  }

  /** Every escape is read back as the character it stands for. */
  lemma EscapeReads(c: char, rest: string)
    requires Byte(c)
    ensures ReadChar(Escape(c) + rest).Some?
    ensures ReadChar(Escape(c) + rest).value.0 == c && ReadChar(Escape(c) + rest).value.1 == |Escape(c)|
    ensures Escape(c)[0] != '"'
  {
    var t := Escape(c) + rest;
    assert t[0] == Escape(c)[0];
    if |Escape(c)| >= 2 {
      assert t[1] == Escape(c)[1];
    }
    if |Escape(c)| == 4 {
      assert t[2] == Escape(c)[2] && t[3] == Escape(c)[3];
    }
  }

  /** Visible characters stand for themselves, but for the quote and the backslash; five
      characters have an escape of one letter, and all others are hexadecimal, in lower case. */
  lemma EscapeLengths(c: char)
    requires Byte(c)
    ensures |Escape(c)| ==
            if c in "\n\t\r\\\"" then 2 else if ' ' <= c <= '~' then 1 else 4
    ensures |Escape(c)| == 1 ==> Escape(c) == [c]
    ensures forall k :: 0 <= k < |Escape(c)| ==> ' ' <= Escape(c)[k] <= '~'
    ensures |Escape(c)| == 4 ==> forall k :: 2 <= k < 4 ==> !('A' <= Escape(c)[k] <= 'F')
  {
    if !(' ' <= c <= '~') {
      LowerCase(c as int / 16);
      LowerCase(c as int % 16);
    }
  }

  lemma LowerCase(d: nat)
    requires d < 16
    ensures '0' <= DigitChar(d) <= '9' || 'a' <= DigitChar(d) <= 'f'
  {
  }

  /** Whatever the bytes of a string, what is written for it is visible ASCII text in one line. */
  lemma {:induction false} EscapedIsVisible(s: string)
    requires Bytes(s)
    ensures forall k :: 0 <= k < |EscapeAll(s)| ==> ' ' <= EscapeAll(s)[k] <= '~'
  {
    if s != [] {
      EscapeLengths(s[0]);
      EscapedIsVisible(s[1..]);
    }
  }

  /** Reading t yields s and leaves rest. */
  predicate Scalar(t: string, s: string, rest: string) {
    ReadScalar(t).Some? && ReadScalar(t).value.0 == s && ReadScalar(t).value.1 == rest
  }

  lemma ScalarStep(c: char, tail: string, s: string, rest: string)
    requires Byte(c) && Scalar(tail, s, rest)
    ensures Scalar(Escape(c) + tail, [c] + s, rest)
  {
    var e := Escape(c);
    EscapeReads(c, tail);
    EscapeLength(c);
    assert (e + tail)[|e|..] == tail && (e + tail)[0] == e[0];
  }

  lemma EscapeFirst(s: string, close: string)
    requires Bytes(s) && s != []
    ensures EscapeAll(s) + close == Escape(s[0]) + (EscapeAll(s[1..]) + close)
  {
    Associative(Escape(s[0]), EscapeAll(s[1..]), close);
  }

  lemma HeadAndTail(s: string)
    requires s != []
    ensures s == [s[0]] + s[1..]
  {
  }

  lemma InitAndLast(s: string)
    requires s != []
    ensures s == s[..|s| - 1] + [s[|s| - 1]]
  {
  }

  lemma {:induction false} ScalarTo(s: string, close: string)
    requires Bytes(s) && close != [] && close[0] == '"'
    ensures Scalar(EscapeAll(s) + close, s, close[1..])
    decreases |s|
  {
    if s == [] {
      assert EscapeAll(s) + close == close;
    } else {
      ScalarTo(s[1..], close);
      ScalarStep(s[0], EscapeAll(s[1..]) + close, s[1..], close[1..]);
      EscapeFirst(s, close);
      HeadAndTail(s);
    }
  }

  /** A quoted string is read back, whatever follows it: fputy() is undone. */
  lemma ScalarReads(s: string, rest: string)
    requires Bytes(s)
    ensures Scalar(EscapeAll(s) + ("\"" + rest), s, rest)
  {
    ScalarTo(s, "\"" + rest);
    assert ("\"" + rest)[1..] == rest;
  }

  // ---------- the command line ----------

  /** The arguments as the kernel shows them: each one followed by a NUL. */
  function Cmdline(args: seq<string>): string {
    if args == [] then [] else args[0] + ([NUL] + Cmdline(args[1..]))
  }

  predicate AllBytes(args: seq<string>) {
    forall k :: 0 <= k < |args| ==> Bytes(args[k])
  }

  lemma {:induction false} CmdlineIsData(args: seq<string>)
    requires AllBytes(args)
    ensures CmdlineData(Cmdline(args)) && (args != [] ==> Cmdline(args) != [])
  {
    if args != [] {
      CmdlineIsData(args[1..]);
      var d, n := Cmdline(args), |args[0]|;
      forall k | 0 <= k < |d| ensures d[k] == NUL || Byte(d[k]) {
        if k < n {
          assert d[k] == args[0][k];
        } else if k > n {
          assert d[k] == Cmdline(args[1..])[k - n - 1];
        }
      }
    }
  }

  lemma {:induction false} ItemsOfArgument(a: string, d: string)
    requires Bytes(a) && CmdlineData(d)
    ensures CmdlineData(a + d) && Items(a + d) == EscapeAll(a) + Items(d)
  {
    if a == [] {
      assert a + d == d;
    } else {
      assert (a + d)[0] == a[0] && (a + d)[1..] == a[1..] + d;
      ItemsOfArgument(a[1..], d);
      assert Escape(a[0]) + (EscapeAll(a[1..]) + Items(d)) == EscapeAll(a) + Items(d);
    }
  }

  lemma ItemsOfCmdline(args: seq<string>)
    requires AllBytes(args) && args != [] && CmdlineData(Cmdline(args)) && CmdlineData(Cmdline(args[1..]))
    ensures Items(Cmdline(args)) ==
            EscapeAll(args[0]) + (if |args| == 1 then "" else "\", \"" + Items(Cmdline(args[1..])))
  {
    var more := [NUL] + Cmdline(args[1..]);
    CmdlineIsData(args[1..]);
    assert more[0] == NUL && more[1..] == Cmdline(args[1..]);
    assert CmdlineData(more);
    ItemsOfArgument(args[0], more);
  }

  /** The text of the entries, behind the opening bracket and its space. */
  function Entries(args: seq<string>, tail: string): string
    requires CmdlineData(Cmdline(args))
  {
    "\"" + (Items(Cmdline(args)) + ("\"" + (" ]" + tail)))
  }

  lemma FirstOfOne(a: string, tail: string)
    requires Bytes(a)
    ensures var r := ReadEntries("\"" + (EscapeAll(a) + ("\"" + (" ]" + tail))));
            r.Some? && r.value.0 == [a] && r.value.1 == tail
  {
    var rest := " ]" + tail;
    var t := "\"" + (EscapeAll(a) + ("\"" + rest));
    assert t[1..] == EscapeAll(a) + ("\"" + rest);
    ScalarReads(a, rest);
    assert rest[1..] == "]" + tail && (rest[1..])[1..] == tail;
    assert SkipBlanks(rest) == rest[1..];
  }

  lemma FirstOfMany(a: string, next: string)
    requires Bytes(a) && next != [] && next[0] == '"' && ReadEntries(next).Some?
    ensures var r := ReadEntries("\"" + (EscapeAll(a) + ("\"" + (", " + next))));
            r.Some? && r.value.0 == [a] + ReadEntries(next).value.0 && r.value.1 == ReadEntries(next).value.1
  {
    var rest := ", " + next;
    var t := "\"" + (EscapeAll(a) + ("\"" + rest));
    assert t[1..] == EscapeAll(a) + ("\"" + rest);
    ScalarReads(a, rest);
    assert SkipBlanks(rest) == rest;
    assert rest[1..][0] == ' ' && rest[1..][1..] == next;
    assert SkipBlanks(rest[1..]) == SkipBlanks(next) == next;
  }

  lemma {:induction false} EntriesRead(args: seq<string>, tail: string)
    requires AllBytes(args) && args != [] && CmdlineData(Cmdline(args))
    ensures var r := ReadEntries(Entries(args, tail)); r.Some? && r.value.0 == args && r.value.1 == tail
    decreases |args|
  {
    CmdlineIsData(args[1..]);
    ItemsOfCmdline(args);
    var a, rest := args[0], " ]" + tail;
    if |args| == 1 {
      assert EscapeAll(a) + "" == EscapeAll(a);
      FirstOfOne(a, tail);
      assert [a] == args;
    } else {
      var next := Entries(args[1..], tail);
      EntriesRead(args[1..], tail);
      FirstOfMany(a, next);
      JoinEntries(EscapeAll(a), Items(Cmdline(args[1..])), "\"" + rest);
      assert [a] + args[1..] == args;
    }
  }

  lemma JoinEntries(e: string, items: string, close: string)
    ensures (e + ("\", \"" + items)) + close == e + ("\"" + (", " + ("\"" + (items + close))))
  {
    assert "\", \"" + items == "\"" + (", " + ("\"" + items));
  }

  /** The last NUL of the file makes no difference behind a last argument that is not empty. */
  lemma {:induction false} FinalNulOptional(d: string)
    requires CmdlineData(d) && d != [] && d[|d| - 1] != NUL
    ensures CmdlineData(d + [NUL]) && Items(d + [NUL]) == Items(d)
  {
    var f := d + [NUL];
    assert f[0] == d[0] && f[1..] == d[1..] + [NUL];
    if |d| == 1 {
      assert d[1..] == [] && f[1..] == [NUL];
    } else {
      FinalNulOptional(d[1..]);
    }
  }

  lemma TextReads(items: string, entries: string, tail: string)
    requires entries == "\"" + (items + ("\"" + (" ]" + tail)))
    ensures var text := "[ " + ("\"" + items + "\"") + " ]";
            ReadFlowSequence(text + tail) == ReadEntries(entries)
  {
    var text := "[ " + ("\"" + items + "\"") + " ]";
    assert text + tail == "[ " + entries;
    assert (text + tail)[1..] == " " + entries && (" " + entries)[1..] == entries;
    assert SkipBlanks(entries) == entries;
    assert SkipBlanks(" " + entries) == entries;
  }

  /** Reading t yields the arguments and leaves tail. */
  predicate Flow(t: string, args: seq<string>, tail: string) {
    ReadFlowSequence(t).Some? && ReadFlowSequence(t).value.0 == args && ReadFlowSequence(t).value.1 == tail
  }

  lemma DataReads(args: seq<string>, d: string, tail: string)
    requires AllBytes(args) && args != [] && CmdlineData(Cmdline(args))
    requires CmdlineData(d) && d != [] && Items(d) == Items(Cmdline(args))
    ensures Flow(CmdlineText(d) + tail, args, tail)
  {
    EntriesRead(args, tail);
    TextReads(Items(d), Entries(args, tail), tail);
  }

  /** The flow sequence written for a command line is read back as its arguments, empty ones
      included, whether the file ends with a NUL or (behind a last argument that is not empty)
      without one. */
  lemma CmdlineReads(args: seq<string>, terminated: bool, tail: string)
    requires AllBytes(args)
    requires terminated || (args != [] && args[|args| - 1] != [])
    ensures var d := if terminated then Cmdline(args) else Cmdline(args)[..|Cmdline(args)| - 1];
            CmdlineData(d) && Flow(CmdlineText(d) + tail, args, tail)
  {
    CmdlineIsData(args);
    if args == [] {
      NoArguments(tail);
    } else if terminated {
      DataReads(args, Cmdline(args), tail);
    } else {
      UnterminatedReads(args, Cmdline(args), tail);
    }
  }

  lemma UnterminatedReads(args: seq<string>, full: string, tail: string)
    requires AllBytes(args) && args != [] && args[|args| - 1] != [] && full == Cmdline(args) && CmdlineData(full)
    ensures full != [] && CmdlineData(full[..|full| - 1]) && Flow(CmdlineText(full[..|full| - 1]) + tail, args, tail)
  {
    LastCharacter(args);
    InitAndLast(full);
    FinalNulOptional(full[..|full| - 1]);
    DataReads(args, full[..|full| - 1], tail);
  }

  lemma NoArguments(tail: string)
    ensures Flow(CmdlineText([]) + tail, [], tail)
  {
    var t := CmdlineText([]) + tail;
    assert t == "[" + ("  ]" + tail);
    var i := "  ]" + tail;
    assert t[1..] == i && i[1..] == " ]" + tail && i[1..][1..] == "]" + tail && i[1..][1..][1..] == tail;
    assert SkipBlanks(i) == SkipBlanks(i[1..]) == SkipBlanks(i[1..][1..]) == i[1..][1..];
  }

  /** A command line ends with a NUL, and before it comes the end of its last argument. */
  lemma {:induction false} LastCharacter(args: seq<string>)
    requires AllBytes(args) && args != [] && args[|args| - 1] != []
    ensures var d := Cmdline(args);
            |d| >= 2 && d[|d| - 1] == NUL && d[|d| - 2] != NUL
  {
    var d, last := Cmdline(args), args[|args| - 1];
    if |args| == 1 {
      assert d == args[0] + [NUL] by {
        assert Cmdline(args[1..]) == [];
      }
      assert d[|d| - 2] == last[|last| - 1] && Byte(last[|last| - 1]);
    } else {
      LastCharacter(args[1..]);
      var e := Cmdline(args[1..]);
      assert d == args[0] + [NUL] + e;
      assert d[|d| - 1] == e[|e| - 1] && d[|d| - 2] == e[|e| - 2];
    }
  }
}
