/** log_conf(), and the round trip through parse_line(). */
module ConfigPrinting {
  import opened Basics
  import opened Text
  import opened Config

  /** printf's "%#x" */
  function AltHex(n: nat): string {
    if n == 0 then "0" else "0x" + Digits(n, 16)
  }

  function NameOf(names: seq<EnumName>, value: int): string {
    if names == [] then "UNKNOWN_VALUE_" + Decimal(value)
    else if names[0].value == value then names[0].name
    else NameOf(names[1..], value)
  }

  function MappingText(m: Mapping): string {
    AltHex(m.addr) + ":" + m.file
  }

  function MappingTexts(m: seq<Mapping>): seq<string> {
    if m == [] then [] else [MappingText(m[0])] + MappingTexts(m[1..])
  }

  /** The values that log_conf() prints for one option, one line each. */
  function ValueTexts(kind: Kind, v: OptionValue): seq<string>
    requires HasKind(v, kind)
  {
    match kind
    case Enum(names) => [NameOf(names, v.n)]
    case Integer => [Decimal(v.n)]
    case Single => [if v.s == None then "~" else v.s.value]
    case Multi => if v.l == [] then ["~"] else v.l
    case MapMulti =>
      if v.m == [] then ["~"] else MappingTexts(v.m)
  }

  /** "%s = %s" */
  function Line(keyword: string, text: string): string {
    keyword + " = " + text
  }

  function Lines(keyword: string, texts: seq<string>): seq<string> {
    if texts == [] then [] else [Line(keyword, texts[0])] + Lines(keyword, texts[1..])
  }

  /** log_conf() for the options from index `from` on. */
  function LogConf(t: Table, c: Conf, from: nat): seq<string>
    requires Typed(t, c) && from <= |t|
    decreases |t| - from
  {
    if from == |t| then [] else Lines(t[from].name, ValueTexts(t[from].kind, c[from])) + LogConf(t, c, from + 1)
  }

  // ---------- what can be stored ----------

  predicate PlainWord(s: string) {
    s != [] && forall k :: 0 <= k < |s| ==> !IsSpace(s[k]) && s[k] != '='
  }

  ghost predicate GoodKind(k: Kind) {
    k.Enum? ==>
      && (forall i :: 0 <= i < |k.names| ==> PlainWord(k.names[i].name))
      && (forall i, j :: 0 <= i < j < |k.names| ==> k.names[i].name != k.names[j].name)
  }

  /** Keywords are distinct words, and so are the names of each enumeration. */
  ghost predicate GoodTable(t: Table) {
    && (forall i :: 0 <= i < |t| ==> PlainWord(t[i].name) && t[i].name[0] != '#' && GoodKind(t[i].kind))
    && (forall i, j :: 0 <= i < j < |t| ==> t[i].name != t[j].name)
  }

  /** Stored strings are trimmed, not empty, and not the word for "no value". */
  predicate StoredString(s: string) {
    Trimmed(s) && s != "~"
  }

  predicate StoredMapping(m: Mapping) {
    m.addr < 0x1_0000_0000_0000_0000 && (m.file == [] || !IsSpace(m.file[|m.file| - 1]))
  }

  /** Values that parse_line() can leave in an option. */
  ghost predicate Canonical(kind: Kind, v: OptionValue)
    requires HasKind(v, kind)
  {
    match kind
    case Enum(names) => exists i :: 0 <= i < |names| && names[i].value == v.n
    case Integer => -0x8000_0000 <= v.n < 0x8000_0000
    case Single => v.s == None || StoredString(v.s.value)
    case Multi => forall k :: 0 <= k < |v.l| ==> StoredString(v.l[k])
    case MapMulti => forall k :: 0 <= k < |v.m| ==> StoredMapping(v.m[k])
  }

  ghost predicate CanonicalConf(t: Table, c: Conf) {
    Typed(t, c) && forall i :: 0 <= i < |t| ==> Canonical(t[i].kind, c[i])
  }

  lemma {:induction false} FindNameIs(names: seq<EnumName>, word: string) returns (i: nat)
    requires FindName(names, word).Some?
    ensures i < |names| && names[i].value == FindName(names, word).value
  {
    if names[0].name == word {
      i := 0;
    } else {
      i := FindNameIs(names[1..], word);
      i := i + 1;
    }
  }

  lemma {:induction false} ChompOfTrimmed(s: string)
    requires s == [] || !IsSpace(s[|s| - 1])
    ensures Chomp(s) == s
  {
  }

  /** Every parser keeps this, accepted or not. */
  lemma ParseKeepsCanonical(kind: Kind, was: OptionValue, v: string)
    requires HasKind(was, kind) && Canonical(kind, was) && Trimmed(v)
    ensures Canonical(kind, ParseValue(kind, was, v).0)
  {
    match kind
    case Enum(names) =>
      if FindName(names, FirstWord(v)).Some? {
        var i := FindNameIs(names, FirstWord(v));
      }
    case Integer =>
    case Single => ChompOfTrimmed(v);
    case Multi => ChompOfTrimmed(v);
    case MapMulti =>
  }

  /** Invariant of every run: what the lines of a file leave behind is canonical, whether the
      last of them was accepted or not. */
  lemma {:induction false} ReachableIsCanonical(t: Table, c: Conf, lines: seq<string>)
    requires CanonicalConf(t, c)
    ensures CanonicalConf(t, ApplyAll(t, c, lines).0)
    decreases |lines|
  {
    if lines != [] {
      var d := Split(lines[0]);
      if d.Assign? {
        var i := Find(t, d.keyword);
        if i < |t| {
          ParseKeepsCanonical(t[i].kind, c[i], d.value);
        }
      }
      ReachableIsCanonical(t, Apply(t, c, lines[0]).0, lines[1..]);
    }
  }
}
