/** What a run of accepted lines means, option by option. */
module ConfigHistory {
  import opened Basics
  import opened Config
  import opened ConfigPrinting
  import opened ConfigRoundTrip

  /** The values that the lines assign to one keyword, in order. */
  function Assigned(lines: seq<string>, keyword: string): seq<string> {
    if lines == [] then []
    else
      var d := Split(lines[0]);
      (if d.Assign? && d.keyword == keyword then [d.value] else []) + Assigned(lines[1..], keyword)
  }

  /** Options do not interfere: each one is the outcome of its own values alone. */
  lemma {:induction false} OptionHistory(t: Table, c: Conf, lines: seq<string>, i: nat)
    requires GoodTable(t) && Typed(t, c) && i < |t| && ApplyAll(t, c, lines).1
    ensures ParseAll(t[i].kind, c[i], Assigned(lines, t[i].name)) == (ApplyAll(t, c, lines).0[i], true)
    decreases |lines|
  {
    if lines != [] {
      var d := Split(lines[0]);
      var vs := Assigned(lines[1..], t[i].name);
      var next := Apply(t, c, lines[0]).0;
      OptionHistory(t, next, lines[1..], i);
      if d.Assign? && d.keyword == t[i].name {
        FindIs(t, i);
        ParseAllCons(t[i].kind, c[i], d.value, vs, next[i]);
      } else {
        assert next[i] == c[i];
        assert [] + vs == vs;
      }
    }
  }

  /** A string list holds exactly the values since its last "~", in order. */
  lemma {:induction false} ListHistory(was: OptionValue, vs: seq<string>, k: nat)
    requires was.List? && forall i :: 0 <= i < |vs| ==> Trimmed(vs[i])
    requires k < |vs| && vs[k] == "~" && "~" !in vs[k + 1..]
    ensures ParseAll(Multi, was, vs) == (List(vs[k + 1..]), true)
    decreases |vs|
  {
    ChompOfTrimmed(vs[0]);
    if k > 0 {
      assert vs[1..][k - 1] == vs[k] && vs[1..][k..] == vs[k + 1..];
      ListHistory(ParseValue(Multi, was, vs[0]).0, vs[1..], k - 1);
    } else {
      NoneIsStored(vs[1..]);
      StringsRead(vs[1..], List([]));
      assert [] + vs[1..] == vs[1..];
    }
  }

  lemma NoneIsStored(vs: seq<string>)
    requires "~" !in vs && forall i :: 0 <= i < |vs| ==> Trimmed(vs[i])
    ensures forall i :: 0 <= i < |vs| ==> StoredString(vs[i])
  {
    forall i | 0 <= i < |vs| ensures StoredString(vs[i]) {
      assert vs[i] in vs;
    }
  }

  /** A single string is the last value, or unset if that is "~". */
  lemma {:induction false} StringHistory(was: OptionValue, vs: seq<string>)
    requires was.Str? && vs != [] && forall k :: 0 <= k < |vs| ==> Trimmed(vs[k])
    ensures var last := vs[|vs| - 1];
            ParseAll(Single, was, vs) == (Str(if last == "~" then None else Some(last)), true)
    decreases |vs|
  {
    ChompOfTrimmed(vs[0]);
    if |vs| > 1 {
      StringHistory(ParseValue(Single, was, vs[0]).0, vs[1..]);
    } else {
      assert vs[1..] == [];
    }
  }

  /** A number or a name is decided by the last value alone. */
  lemma {:induction false} ScalarHistory(kind: Kind, was: OptionValue, other: OptionValue, vs: seq<string>)
    requires (kind == Integer || kind.Enum?) && was.Num? && other.Num? && vs != [] && ParseAll(kind, was, vs).1
    ensures ParseAll(kind, was, vs) == ParseValue(kind, other, vs[|vs| - 1])
    decreases |vs|
  {
    if |vs| > 1 {
      ScalarHistory(kind, ParseValue(kind, was, vs[0]).0, other, vs[1..]);
    } else {
      assert vs[1..] == [];
    }
  }

  lemma {:induction false} AssignedTrimmed(lines: seq<string>, keyword: string)
    ensures forall k :: 0 <= k < |Assigned(lines, keyword)| ==> Trimmed(Assigned(lines, keyword)[k])
  {
    if lines != [] {
      AssignedTrimmed(lines[1..], keyword);
    }
  }

  /** After any accepted lines, a list option holds the values since the last "~" that the
      lines assign to it, behind what it held before if there is none. */
  lemma ListOptionMeaning(t: Table, c: Conf, lines: seq<string>, i: nat)
    requires GoodTable(t) && Typed(t, c) && i < |t| && t[i].kind == Multi && ApplyAll(t, c, lines).1
    ensures var vs, after := Assigned(lines, t[i].name), ApplyAll(t, c, lines).0[i];
            && ("~" !in vs ==> after == List(c[i].l + vs))
            && (forall k :: 0 <= k < |vs| && vs[k] == "~" && "~" !in vs[k + 1..] ==> after == List(vs[k + 1..]))
  {
    var vs := Assigned(lines, t[i].name);
    OptionHistory(t, c, lines, i);
    AssignedTrimmed(lines, t[i].name);
    if "~" !in vs {
      NoneIsStored(vs);
      StringsRead(vs, c[i]);
    }
    forall k | 0 <= k < |vs| && vs[k] == "~" && "~" !in vs[k + 1..]
      ensures ApplyAll(t, c, lines).0[i] == List(vs[k + 1..])
    {
      ListHistory(c[i], vs, k);
    }
  }
}
