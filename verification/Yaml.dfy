/** The YAML that info.c writes for strings, and a reader for it. Bytes are characters from 1
    to 255; from 128 on this is the program where `char` is unsigned. */
module Yaml {
  import opened Text

  predicate Byte(c: char) {
    1 <= c as int <= 255
  }

  predicate Bytes(s: string) {
    forall k :: 0 <= k < |s| ==> Byte(s[k])
  }

  // ---------- writing ----------

  predicate IsPrint(c: char) {
    ' ' <= c <= '~'
  }

  /** yaml_esc() */
  function Escape(c: char): (s: string)
    requires Byte(c)
  {
    match c
    case '\n' => "\\n"
    case '\t' => "\\t"
    case '\r' => "\\r"
    case '\\' => "\\\\"
    case '"' => "\\\""
    case _ => if IsPrint(c) then [c] else ['\\', 'x', DigitChar(c as int / 16), DigitChar(c as int % 16)]
  }

  function EscapeAll(s: string): string
    requires Bytes(s)
  {
    if s == [] then [] else Escape(s[0]) + EscapeAll(s[1..])
  }

  function Quoted(s: string): string
    requires Bytes(s)
  {
    "\"" + EscapeAll(s) + "\""
  }

  /** A stdio stream that takes `capacity` characters; `asked` is everything it was given. */
  class OutFile {
    const capacity: nat
    var text: string
    ghost var asked: string

    constructor (capacity: nat)
      ensures Valid() && this.capacity == capacity && asked == ""
    {
      this.capacity, text, asked := capacity, "", "";
    }

    ghost predicate Valid()
      reads this
    {
      |text| <= capacity && text <= asked && (text == asked || |text| == capacity)
    }

    /** fputc() and fputs(): false stands for EOF. */
    method Put(s: string) returns (ok: bool)
      requires Valid()
      modifies this
      ensures Valid() && asked == old(asked) + s
      ensures ok ==> text == old(text) + s
      ensures !ok ==> |text| == capacity
    {
      var room := capacity - |text|;
      ok := |s| <= room;
      asked := asked + s;
      if ok {
        text := text + s;
      } else {
        text := text + s[..room];
      }
    }
  }

  /** The next piece of what is still to be written. */
  method PutNext(stream: OutFile, piece: string, ghost total: string, ghost rest: string) returns (ok: bool)
    requires stream.Valid() && stream.text == stream.asked && total == stream.text + (piece + rest)
    modifies stream
    ensures stream.Valid() && total == stream.asked + rest
    ensures ok ==> stream.text == stream.asked
    ensures !ok ==> |stream.text| == stream.capacity && stream.text <= total
  {
    ok := stream.Put(piece);
  }

  /** fputy(): the quoted string, or as much of it as the stream takes. */
  method Fputy(s: string, stream: OutFile) returns (rtn: int)
    requires stream.Valid() && stream.text == stream.asked && Bytes(s)
    modifies stream
    ensures stream.Valid()
    ensures rtn == 0 ==> stream.text == old(stream.text) + Quoted(s)
    ensures rtn != 0 ==> |stream.text| == stream.capacity && stream.text <= old(stream.text) + Quoted(s)
  {
    ghost var total, rest := stream.text + Quoted(s), EscapeAll(s) + "\"";
    assert Quoted(s) == "\"" + rest && s[0..] == s;
    var ok := PutNext(stream, "\"", total, rest);
    if !ok {
      return -1;
    }
    var n := 0;
    while n < |s|
      invariant n <= |s| && stream.Valid() && stream.text == stream.asked
      invariant rest == EscapeAll(s[n..]) + "\"" && total == stream.text + rest
    {
      assert s[n..][0] == s[n] && s[n..][1..] == s[n + 1..];
      rest := EscapeAll(s[n + 1..]) + "\"";
      assert EscapeAll(s[n..]) + "\"" == Escape(s[n]) + rest;
      ok := PutNext(stream, Escape(s[n]), total, rest);
      if !ok {
        return -1;
      }
      n := n + 1;
    }
    assert rest == "\"" + "";
    ok := PutNext(stream, "\"", total, "");
    return if ok then 0 else -1;
  }

  // ---------- the command line ----------

  /** What is written for the rest of the cmdline file, one character at a time; a NUL with
      something behind it separates two arguments. */
  function Items(d: string): string
    requires forall k :: 0 <= k < |d| ==> d[k] == NUL || Byte(d[k])
  {
    if d == [] then []
    else if d[0] != NUL then Escape(d[0]) + Items(d[1..])
    else if |d| == 1 then []
    else "\", \"" + Items(d[1..])
  }

  predicate CmdlineData(d: string) {
    forall k :: 0 <= k < |d| ==> d[k] == NUL || Byte(d[k])
  }

  function CmdlineText(d: string): string
    requires CmdlineData(d)
  {
    "[ " + (if d == [] then "" else "\"" + Items(d) + "\"") + " ]"
  }

  /** A stream that is read character by character. */
  class InFile {
    const data: string
    var pos: nat

    constructor (data: string)
      ensures this.data == data && pos == 0
    {
      this.data, pos := data, 0;
    }

    /** fgetc(): -1 is EOF. */
    method Getc() returns (c: int)
      requires pos <= |data|
      modifies this
      ensures pos <= |data|
      ensures if old(pos) == |data| then c == -1 && pos == old(pos)
              else c == data[old(pos)] as int && pos == old(pos) + 1
    {
      if pos == |data| {
        return -1;
      }
      c := data[pos] as int;
      pos := pos + 1;
    }

    /** ungetc() of the character that was read last. */
    method Ungetc()
      requires 0 < pos <= |data|
      modifies this
      ensures pos == old(pos) - 1
    {
      pos := pos - 1;
    }
  }

  lemma ItemsStep(d: string, n: nat)
    requires CmdlineData(d) && n < |d|
    ensures d[n] != NUL ==> Items(d[n..]) == Escape(d[n]) + Items(d[n + 1..])
    ensures d[n] == NUL ==> Items(d[n..]) == if n + 1 == |d| then "" else "\", \"" + Items(d[n + 1..])
    ensures n + 1 == |d| ==> Items(d[n + 1..]) == ""
  {
    assert d[n..][0] == d[n] && d[n..][1..] == d[n + 1..];
  }

  lemma PutTwo(a: string, b: string, c: string)
    ensures a + (b + c) == a + b + c && c + "" == c
  {
  }

  /** One round: the character c was read at position n. */
  method PutItem(p: InFile, c0: int, stream: OutFile, ghost n: nat) returns (c: int)
    requires stream.Valid() && CmdlineData(p.data) && n < |p.data| && p.pos == n + 1 && c0 == p.data[n] as int
    modifies p, stream
    ensures stream.Valid() && p.pos <= |p.data|
    ensures c == -1 ==> stream.asked == old(stream.asked) + Items(p.data[n..])
    ensures c != -1 ==> p.pos == n + 2 && c == p.data[n + 1] as int
    ensures c != -1 ==> old(stream.asked) + Items(p.data[n..]) == stream.asked + Items(p.data[n + 1..])
  {
    c := c0;
    ItemsStep(p.data, n);
    ghost var before, rest := stream.asked, Items(p.data[n + 1..]);
    if c != 0 {
      PutTwo(before, Escape(p.data[n]), rest);
      var _ := stream.Put(Escape(c as char));
      c := p.Getc();
    } else {
      c := p.Getc();
      if c != -1 {
        PutTwo(before, "\", \"", rest);
        var _ := stream.Put("\", \"");
        p.Ungetc();
      }
      c := p.Getc();
    }
  }

  /** The loop over the command line in info_dump(), with one character of pushback. */
  method PutItems(p: InFile, first: int, stream: OutFile)
    requires stream.Valid() && CmdlineData(p.data) && p.pos == 1 <= |p.data| && first == p.data[0] as int
    modifies p, stream
    ensures stream.Valid() && stream.asked == old(stream.asked) + Items(p.data)
  {
    var c := first;
    ghost var total, d, n := stream.asked + Items(p.data), p.data, 0;
    assert d[0..] == d;
    while c != -1
      invariant stream.Valid() && n <= |d|
      invariant c != -1 ==> n < |d| && p.pos == n + 1 && c == d[n] as int && total == stream.asked + Items(d[n..])
      invariant c == -1 ==> total == stream.asked
      decreases c != -1, |d| - n
    {
      c := PutItem(p, c, stream, n);
      n := n + 1;
    }
  }

  method PutQuoted(p: InFile, first: int, stream: OutFile)
    requires stream.Valid() && CmdlineData(p.data) && p.pos == 1 <= |p.data| && first == p.data[0] as int
    modifies p, stream
    ensures stream.Valid() && stream.asked == old(stream.asked) + ("\"" + Items(p.data) + "\"")
  {
    ghost var before, items := stream.asked, Items(p.data);
    var _ := stream.Put("\"");
    PutItems(p, first, stream);
    var _ := stream.Put("\"");
    assert before + "\"" + items + "\"" == before + ("\"" + items + "\"");
  }

  /** The cmdline line of info_dump(), behind its key. */
  method PutCmdline(p: InFile, stream: OutFile)
    requires stream.Valid() && CmdlineData(p.data) && p.pos == 0
    modifies p, stream
    ensures stream.Valid() && stream.asked == old(stream.asked) + CmdlineText(p.data)
  {
    ghost var before, d := stream.asked, p.data;
    ghost var inner := if d == [] then "" else "\"" + Items(d) + "\"";
    var _ := stream.Put("[ ");
    var c := p.Getc();
    if c != -1 {
      PutQuoted(p, c, stream);
    }
    assert stream.asked == before + "[ " + inner;
    var _ := stream.Put(" ]");
    PutThree(before, "[ ", inner, " ]");
  }

  lemma PutThree(a: string, b: string, c: string, d: string)
    ensures a + b + c + d == a + (b + c + d)
  {
  }
}
