/** The round trip for the options of this program. */
module OptionsRoundTrip {
  import opened Basics
  import opened Config
  import opened ConfigPrinting
  import opened ConfigRoundTrip
  import opened Options
  import opened MapsFile
  import opened MapsProperties
  import opened LineReader

  /** Length, first and last character tell the keywords apart. KEYS and LEVEL_KEYS are the values
      of Key for the keywords and the log levels in their order, which KeyAt and LevelKeys state:
      comparing numbers is cheaper than comparing every pair of words. */
  function Key(s: string): int {
    if s == [] then 0 else |s| * 0x1_0000 + s[0] as int * 0x100 + s[|s| - 1] as int
  }

  const KEYS: seq<int> :=
    [747891, 1010033, 747890, 682354, 747897, 747892, 1270376, 746355, 1008497, 746354, 680818, 746361,
     746356, 1074021, 1075577, 287589, 552047, 683111, 683122, 749669, 618600, 553061, 618611, 946292, 946283]

  lemma KeyAt(i: nat)
    requires i < |KEYWORDS|
    ensures Key(KEYWORDS[i].name) == KEYS[i]
  {
  }

  lemma DistinctKeys(i: nat, j: nat)
    requires i < j < |KEYS|
    ensures KEYS[i] != KEYS[j]
  {
  }

  lemma PlainNames0(i: nat)
    requires i < 5
    ensures PlainWord(KEYWORDS[i].name)
  {
    assert PlainWord("info_exists");
    assert PlainWord("info_exists_seq");
    assert PlainWord("info_filter");
    assert PlainWord("info_mkdir");
    assert PlainWord("info_notify");
  }

  lemma PlainNames5(i: nat)
    requires 5 <= i < 10
    ensures PlainWord(KEYWORDS[i].name)
  {
    assert PlainWord("info_output");
    assert PlainWord("backtrace_max_depth");
    assert PlainWord("core_exists");
    assert PlainWord("core_exists_seq");
    assert PlainWord("core_filter");
  }

  lemma PlainNames10(i: nat)
    requires 10 <= i < 15
    ensures PlainWord(KEYWORDS[i].name)
  {
    assert PlainWord("core_mkdir");
    assert PlainWord("core_notify");
    assert PlainWord("core_output");
    assert PlainWord("core_buffer_size");
    assert PlainWord("info_core_notify");
  }

  lemma PlainNames15(i: nat)
    requires 15 <= i < 20
    ensures PlainWord(KEYWORDS[i].name)
  {
    assert PlainWord("core");
    assert PlainWord("log_info");
    assert PlainWord("log_syslog");
    assert PlainWord("log_stderr");
    assert PlainWord("proc_ignore");
  }

  lemma PlainNames20(i: nat)
    requires 20 <= i < 25
    ensures PlainWord(KEYWORDS[i].name)
  {
    assert PlainWord("proc_path");
    assert PlainWord("proc_exe");
    assert PlainWord("proc_maps");
    assert PlainWord("proc_dump_root");
    assert PlainWord("proc_dump_task");
  }

  lemma FirstCharacters(i: nat)
    requires i < |KEYWORDS|
    ensures KEYWORDS[i].name != [] && KEYWORDS[i].name[0] != '#'
  {
  }

  lemma KindsAreGood()
    ensures GoodKind(BOOL) && GoodKind(EXISTS)
  {
    assert PlainWord("0") && PlainWord("1") && "0"[0] != "1"[0];
    assert PlainWord("append") && PlainWord("overwrite") && PlainWord("keep") && PlainWord("sequence");
    assert "append"[0] == 'a' && "overwrite"[0] == 'o' && "keep"[0] == 'k' && "sequence"[0] == 's';
  }

  lemma LevelNames(i: nat)
    requires i < |LOGLEVEL.names|
    ensures PlainWord(LOGLEVEL.names[i].name)
  {
    assert PlainWord("none") && PlainWord("emerg") && PlainWord("alert") && PlainWord("crit") && PlainWord("err");
    assert PlainWord("warning") && PlainWord("notice") && PlainWord("info") && PlainWord("debug");
  }

  const LEVEL_KEYS: seq<int> := [290405, 353639, 352628, 287604, 222578, 489319, 421477, 289135, 353383]

  lemma LevelKeys(i: nat)
    requires i < |LOGLEVEL.names|
    ensures Key(LOGLEVEL.names[i].name) == LEVEL_KEYS[i]
  {
  }

  lemma LevelsAreGood()
    ensures GoodKind(LOGLEVEL)
  {
    forall i | 0 <= i < |LOGLEVEL.names| ensures PlainWord(LOGLEVEL.names[i].name) {
      LevelNames(i);
    }
    forall i, j | 0 <= i < j < |LOGLEVEL.names| ensures LOGLEVEL.names[i].name != LOGLEVEL.names[j].name {
      LevelKeys(i);
      LevelKeys(j);
    }
  }

  lemma KeywordsAreGood()
    ensures GoodTable(KEYWORDS)
  {
    forall i | 0 <= i < |KEYWORDS|
      ensures PlainWord(KEYWORDS[i].name) && KEYWORDS[i].name[0] != '#'
    {
      if i < 5 { PlainNames0(i); }
      else if i < 10 { PlainNames5(i); }
      else if i < 15 { PlainNames10(i); }
      else if i < 20 { PlainNames15(i); }
      else { PlainNames20(i); }
      FirstCharacters(i);
    }
    forall i, j | 0 <= i < j < |KEYWORDS| ensures KEYWORDS[i].name != KEYWORDS[j].name {
      KeyAt(i);
      KeyAt(j);
      DistinctKeys(i, j);
    }
    KindsAreGood();
    LevelsAreGood();
    forall i | 0 <= i < |KEYWORDS| ensures GoodKind(KEYWORDS[i].kind) {
      KindAt(i);
    }
  }

  lemma KindAt(i: nat)
    requires i < |KEYWORDS|
    ensures KEYWORDS[i].kind in {BOOL, EXISTS, LOGLEVEL, Integer, Single, Multi, MapMulti}
    ensures KEYWORDS[i].kind == MapMulti <==> i == 22
  {
  }

  lemma EnumDefaults()
    ensures Canonical(BOOL, Num(0)) && Canonical(EXISTS, Num(1)) && Canonical(EXISTS, Num(3))
    ensures Canonical(LOGLEVEL, Num(5)) && Canonical(LOGLEVEL, Num(-1))
    ensures Canonical(LOGLEVEL, Num(3)) && Canonical(LOGLEVEL, Num(7))
  {
    assert BOOL.names[0].value == 0 && EXISTS.names[0].value == 1 && EXISTS.names[2].value == 3;
    assert LOGLEVEL.names[0].value == -1 && LOGLEVEL.names[4].value == 3;
    assert LOGLEVEL.names[6].value == 5 && LOGLEVEL.names[8].value == 7;
  }

  lemma DefaultKindLow(debug: bool, i: nat)
    requires i < 12
    ensures |Defaults(debug)| == |KEYWORDS| && HasKind(Defaults(debug)[i], KEYWORDS[i].kind)
  {
  }

  lemma DefaultKindHigh(debug: bool, i: nat)
    requires 12 <= i < |KEYWORDS|
    ensures |Defaults(debug)| == |KEYWORDS| && HasKind(Defaults(debug)[i], KEYWORDS[i].kind)
  {
  }

  lemma DefaultKind(debug: bool, i: nat)
    requires i < |KEYWORDS|
    ensures |Defaults(debug)| == |KEYWORDS| && HasKind(Defaults(debug)[i], KEYWORDS[i].kind)
  {
    if i < 12 {
      DefaultKindLow(debug, i);
    } else {
      DefaultKindHigh(debug, i);
    }
  }

  lemma DefaultFresh(debug: bool, i: nat)
    requires i < |Defaults(debug)|
    ensures Fresh(Defaults(debug)[i]) && (Defaults(debug)[i].Str? ==> Defaults(debug)[i].s == None)
  {
  }

  lemma IntegersAt(i: nat)
    requires i < |KEYWORDS| && KEYWORDS[i].kind == Integer
    ensures i == 1 || i == 6 || i == 8 || i == 13
  {
  }

  lemma DefaultIntegers(debug: bool)
    ensures Defaults(debug)[1] == Num(0) && Defaults(debug)[6] == Num(50)
    ensures Defaults(debug)[8] == Num(0) && Defaults(debug)[13] == Num(4 * 1024 * 1024)
  {
  }

  lemma DefaultInteger(debug: bool, i: nat)
    requires i < |KEYWORDS| && KEYWORDS[i].kind == Integer
    ensures i < |Defaults(debug)| && Defaults(debug)[i].Num? && 0 <= Defaults(debug)[i].n < 0x8000_0000
  {
    IntegersAt(i);
    DefaultIntegers(debug);
  }

  lemma EnumsAt(i: nat)
    requires i < |KEYWORDS| && KEYWORDS[i].kind.Enum?
    ensures i == 0 || i == 3 || i == 7 || i == 10 || 16 <= i <= 19
  {
  }

  lemma EnumKinds()
    ensures KEYWORDS[0].kind == EXISTS && KEYWORDS[3].kind == BOOL && KEYWORDS[7].kind == EXISTS
    ensures KEYWORDS[10].kind == BOOL && KEYWORDS[16].kind == LOGLEVEL && KEYWORDS[17].kind == LOGLEVEL
    ensures KEYWORDS[18].kind == LOGLEVEL && KEYWORDS[19].kind == BOOL
  {
  }

  lemma DefaultEnums(debug: bool)
    ensures var d := Defaults(debug);
            && d[0] == Num(1) && d[3] == Num(0) && d[7] == Num(3) && d[10] == Num(0) && d[16] == Num(5)
            && d[17] == Num(-1) && d[18] == Num(if debug then 7 else 3) && d[19] == Num(0)
  {
  }

  lemma DefaultEnum(debug: bool, i: nat)
    requires i < |KEYWORDS| && KEYWORDS[i].kind.Enum?
    ensures i < |Defaults(debug)| && Defaults(debug)[i].Num? && Canonical(KEYWORDS[i].kind, Defaults(debug)[i])
  {
    EnumsAt(i);
    EnumKinds();
    DefaultEnums(debug);
    EnumDefaults();
  }

  lemma DefaultsAreCanonical(debug: bool)
    ensures CanonicalConf(KEYWORDS, Defaults(debug))
    ensures forall i :: 0 <= i < |KEYWORDS| ==> Fresh(Defaults(debug)[i])
  {
    DefaultKind(debug, 0);
    forall i | 0 <= i < |KEYWORDS|
      ensures HasKind(Defaults(debug)[i], KEYWORDS[i].kind) && Fresh(Defaults(debug)[i])
      ensures Canonical(KEYWORDS[i].kind, Defaults(debug)[i])
    {
      DefaultKind(debug, i);
      DefaultFresh(debug, i);
      if KEYWORDS[i].kind == Integer {
        DefaultInteger(debug, i);
      } else if KEYWORDS[i].kind.Enum? {
        DefaultEnum(debug, i);
      }
    }
  }

  /** The position of proc_maps. */
  const MAPS: nat := 22

  /** Every configuration that lines can produce is rebuilt by its own log, on the defaults, if
      and only if there are mappings and none lies at or above 2^63. */
  lemma ReachableRoundTrip(debug: bool, lines: seq<string>)
    ensures Typed(KEYWORDS, Defaults(debug))
    ensures var c := ApplyAll(KEYWORDS, Defaults(debug), lines).0;
            CanonicalConf(KEYWORDS, c) &&
            (ApplyAll(KEYWORDS, Defaults(debug), LogConf(KEYWORDS, c, 0)) == (c, true) <==> Printable(c[MAPS]))
  {
    KeywordsAreGood();
    DefaultsAreCanonical(debug);
    var c := ApplyAll(KEYWORDS, Defaults(debug), lines).0;
    ReachableIsCanonical(KEYWORDS, Defaults(debug), lines);
    RoundTrip(KEYWORDS, c, Defaults(debug));
    forall i | 0 <= i < |c| && i != MAPS ensures Printable(c[i]) {
      KindAt(i);
    }
  }

  lemma MapsKeyword()
    ensures MAPS < |KEYWORDS| && KEYWORDS[MAPS].name == "proc_maps" && KEYWORDS[MAPS].kind == MapMulti
  {
  }

  lemma MapsDefault(debug: bool)
    ensures MAPS < |Defaults(debug)| && Defaults(debug)[MAPS] == Maps([])
  {
  }

  lemma ReadsMapsFrom(t: Table, c: Conf, i: nat, ls: seq<MapsLine>, max: nat)
    requires HasMaps(t, i) && Typed(t, c) && c[i] == Maps([]) && max > 0
    requires forall k :: 0 <= k < |ls| ==> WellFormed(ls[k]) && |LineText(ls[k])| <= max
    ensures FileResult(t, c, Pieces(Concat(Texts(ls)), max)) == (c[i := Maps(Mappings(ls))], GoesOn)
  {
    FileTextResultOf(t, c, i, ls, max);
    assert [] + Mappings(ls) == Mappings(ls);
  }

  /** From the defaults, reading a well-formed maps file sets proc_maps to the start and path
      of every executable mapping of a file, in file order, and nothing else. */
  lemma ProgramReadsMaps(debug: bool, ls: seq<MapsLine>, max: nat)
    requires max > 0 && forall k :: 0 <= k < |ls| ==> WellFormed(ls[k]) && |LineText(ls[k])| <= max
    ensures Typed(KEYWORDS, Defaults(debug))
    ensures FileResult(KEYWORDS, Defaults(debug), Pieces(Concat(Texts(ls)), max)) ==
            (Defaults(debug)[MAPS := Maps(Mappings(ls))], GoesOn)
  {
    KeywordsAreGood();
    DefaultsAreCanonical(debug);
    MapsKeyword();
    MapsDefault(debug);
    ReadsMapsFrom(KEYWORDS, Defaults(debug), MAPS, ls, max);
  }
}
