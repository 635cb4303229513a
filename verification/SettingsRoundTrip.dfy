// What saving promises: the values come back, the rest of the text survives.
module SettingsRoundTrip {
  import opened SettingsText
  import opened SettingsFile

  // ------------------------------------------------- the lines saving adds

  lemma NameShape(key: int)
    requires 0 <= key < KEY_COUNT
    ensures |NAMES[key]| >= 3
    ensures forall i | 0 <= i < |NAMES[key]| :: 'A' <= NAMES[key][i] <= 'z'
    ensures NAMES[key][0] <= 'Z'
  {
  }

  lemma NamesDistinct(key: int, k: int)
    requires 0 <= key < KEY_COUNT && 0 <= k < KEY_COUNT && EqualNoCase(NAMES[key], NAMES[k])
    ensures key == k
  {
    assert ToLower(NAMES[key][0]) == ToLower(NAMES[k][0]);
    assert ToLower(NAMES[key][1]) == ToLower(NAMES[k][1]);
    assert |NAMES[key]| == |NAMES[k]| == 13 ==> ToLower(NAMES[key][5]) == ToLower(NAMES[k][5]);
  }

  lemma NoStrip(s: string)
    requires s != "" && !IsSpace(s[0])
    ensures LStrip(s) == s
    ensures !IsSpace(s[|s| - 1]) ==> RStrip(s) == s
  {
  }

  lemma AssignmentMeans(name: string, value: string, section: int)
    requires |name| >= 3 && 'A' <= name[0] <= 'Z'
    requires forall i | 0 <= i < |name| :: 'A' <= name[i] <= 'z'
    ensures LineKey(name + "=" + value, section) == LineInfo(FindKey(name, section, 0), section, false, value)
  {
    hide FindKey, LStrip, RStrip, IndexOf;
    var line, n := name + "=" + value, |name|;
    assert line[..n] == name && line[n] == '=' && line[n + 1..] == value;
    assert line[..3][0] == line[0] == name[0];
    NoStrip(line);
    NoStrip(name);
    IndexIsFirst(line, '=', n);
  }

  lemma KeyLineMeans(s: Settings, key: int)
    requires 0 <= key < KEY_COUNT && Writable(s)
    ensures IsLine(KeyLine(s, key))
    ensures LineKey(KeyLine(s, key), KeySection(key)) ==
            LineInfo(key, KeySection(key), false, Decimal(WrittenValue(s, key)))
  {
    NameShape(key);
    FoundByName(key);
    hide NAMES, LineKey, FindKey, KeySection, WrittenValue;
    AssignmentMeans(NAMES[key], Decimal(WrittenValue(s, key)), KeySection(key));
  }

  lemma FoundByName(key: int)
    requires 0 <= key < KEY_COUNT
    ensures FindKey(NAMES[key], KeySection(key), 0) == key
  {
    var k := FindKey(NAMES[key], KeySection(key), 0);
    assert Names(NAMES[key], KeySection(key), key);
    if k >= 0 {
      NamesDistinct(key, k);
    }
  }

  lemma HeaderLineMeans(section: int, previous: int)
    requires 0 <= section <= 1
    ensures IsLine(HeaderLine(section))
    ensures LineKey(HeaderLine(section), previous) == LineInfo(-1, section, true, "")
  {
    var name, line := SECTION_NAMES[section], HeaderLine(section);
    assert |name| == 5 && |line| == 7;
    assert line[0] == '[' && line[6] == ']';
    assert forall i | 0 <= i < 5 :: line[i + 1] == name[i] && name[i] != ']' && !IsSpace(name[i]);
    assert line[..3][0] == line[0];
    NoStrip(line);
    assert line[1..][..5] == name && line[1..][5] == ']';
    IndexIsFirst(line[1..], ']', 5);
    NoStrip(name);
  }

  lemma BlankLineMeans(section: int)
    ensures IsLine("") && LineKey("", section) == LineInfo(-1, section, false, "")
  {
  }

  // --------------------------------------------------- where a pass stands

  // Every section met so far is complete, except the one being read.
  predicate Tracked(st: Saving) {
    && -1 <= st.section <= 1 && (st.section >= 0 ==> st.section in st.sectionSeen)
    && forall sec | sec in st.sectionSeen ::
         0 <= sec <= 1 && (sec != st.section ==> SectionKeys(sec) <= st.seen)
  }

  lemma StateStaysTracked(st: Saving, line: string)
    requires Tracked(st)
    ensures Tracked(SaveState(st, line)) && st.seen <= SaveState(st, line).seen
  {
    hide LineKey;
  }

  lemma {:induction false} StatesStayTracked(st: Saving, lines: seq<string>)
    requires Tracked(st)
    ensures Tracked(SaveStates(st, lines)) && st.seen <= SaveStates(st, lines).seen
    decreases |lines|
  {
    if lines != [] {
      StateStaysTracked(st, lines[0]);
      StatesStayTracked(SaveState(st, lines[0]), lines[1..]);
    }
  }

  // The state once `finish_section` has run.
  function Finished(st: Saving): Saving { st.(seen := st.seen + SectionKeys(st.section)) }

  function WithSection(st: Saving, section: int): Saving {
    if section in st.sectionSeen then st
    else Saving(section, st.seen + SectionKeys(section), st.sectionSeen + {section})
  }

  // The state after everything that saving appends.
  function EndState(st: Saving): Saving {
    WithSection(WithSection(Finished(st), VIDEO), AUDIO)
  }

  lemma EverythingSeen(st: Saving)
    requires Tracked(st)
    ensures forall key | 0 <= key < KEY_COUNT :: key in EndState(st).seen
  {
    forall key | 0 <= key < KEY_COUNT
      ensures key in EndState(st).seen
    {
      assert key in SectionKeys(KeySection(key));
    }
  }

  // ----------------------------------------------------- loading it back

  // The loader has read back every key the saver has written.
  predicate Agree(s: Settings, ld: Loading, st: Saving) {
    && ld.section == st.section
    && (forall key | key in st.seen && 0 <= key < KEY_COUNT :: ld.s[key] == s[key])
    && (TARGET_KEY in st.seen ==> ld.targetSeen)
  }

  lemma {:induction false} LoadAppends(ld: Loading, a: seq<string>, b: seq<string>)
    ensures LoadLines(ld, a + b) == LoadLines(LoadLines(ld, a), b)
    decreases |a|
  {
    if a == [] {
      assert a + b == b;
    } else {
      assert (a + b)[1..] == a[1..] + b;
      LoadAppends(LoadLine(ld, a[0]), a[1..], b);
    }
  }

  lemma LoadOne(ld: Loading, line: string)
    ensures LoadLines(ld, [line]) == LoadLine(ld, line)
  {
    assert LoadLines(LoadLine(ld, line), []) == LoadLine(ld, line);
  }

  lemma AgreeOnKeyLine(s: Settings, ld: Loading, st: Saving, key: int)
    requires Writable(s) && s == Normalize(s) && Agree(s, ld, st)
    requires 0 <= key < KEY_COUNT && KeySection(key) == st.section
    ensures Agree(s, LoadLine(ld, KeyLine(s, key)), st.(seen := st.seen + {key}))
  {
    hide LoadLine, Normalize, Writable, WrittenValue;
    LoadKeyLine(s, ld, key);
    NormalizedRate(s);
  }

  lemma LoadKeyLine(s: Settings, ld: Loading, key: int)
    requires Writable(s) && 0 <= key < KEY_COUNT && KeySection(key) == ld.section
    ensures LoadLine(ld, KeyLine(s, key)) == SetKey(ld, key, WrittenValue(s, key))
  {
    hide LineKey, ReadNumber, KeyLine, Decimal, WrittenValue, NAMES;
    KeyLineMeans(s, key);
    DecimalReadsBack(WrittenValue(s, key));
  }

  // The interpolation line holds the target rate or 0, which the loader tells apart.
  lemma NormalizedRate(s: Settings)
    requires s == Normalize(s)
    ensures s[INTERPOLATION_KEY] == (if WrittenValue(s, INTERPOLATION_KEY) > 0 then 1 else 0)
    ensures forall key | 0 <= key < KEY_COUNT && key != INTERPOLATION_KEY :: WrittenValue(s, key) == s[key]
  {
    assert s[INTERPOLATION_KEY] == Truth(s[INTERPOLATION_KEY]) && s[TARGET_KEY] == Clamp(s[TARGET_KEY], 60, 240);
  }

  // A known key with nothing but white space behind it, a carriage return
  // included, is set to 0.
  lemma BlankValueSetsZero(ld: Loading, key: int, blank: string)
    requires 0 <= key < KEY_COUNT && KeySection(key) == ld.section
    requires blank != "" && forall i | 0 <= i < |blank| :: IsSpace(blank[i])
    ensures LoadLine(ld, NAMES[key] + "=" + blank) == SetKey(ld, key, 0)
  {
    NameShape(key);
    FoundByName(key);
    BlankReadsZero(blank, "");
    assert blank + "" == blank;
    hide NAMES, LineKey, FindKey, KeySection, ReadNumber;
    AssignmentMeans(NAMES[key], blank, ld.section);
  }

  lemma {:induction false} AgreeOnMissing(s: Settings, ld: Loading, st: Saving, seen: set<int>, i: nat)
    requires Writable(s) && s == Normalize(s) && i <= KEY_COUNT && seen <= st.seen && Agree(s, ld, st)
    requires forall key | 0 <= key < i && KeySection(key) == st.section :: key in st.seen
    ensures Agree(s, LoadLines(ld, MissingLines(s, st.section, seen, i)), Finished(st))
    decreases KEY_COUNT - i
  {
    hide LineKey, KeyLine, Normalize, LoadLine;
    if i < KEY_COUNT {
      if KeySection(i) == st.section && i !in seen {
        var st' := st.(seen := st.seen + {i});
        AgreeOnKeyLine(s, ld, st, i);
        AgreeOnMissing(s, LoadLine(ld, KeyLine(s, i)), st', seen, i + 1);
        assert Finished(st') == Finished(st);
        assert MissingLines(s, st.section, seen, i)[1..] == MissingLines(s, st.section, seen, i + 1);
      } else {
        AgreeOnMissing(s, ld, st, seen, i + 1);
      }
    }
  }

  lemma AgreeOnOther(s: Settings, ld: Loading, st: Saving, line: string)
    requires Agree(s, ld, st) && LineKey(line, st.section).key < 0
    ensures Agree(s, LoadLine(ld, line), st.(section := LineKey(line, st.section).section))
  {
    hide LineKey;
  }

  lemma AgreeOnLine(s: Settings, ld: Loading, st: Saving, line: string)
    requires Writable(s) && s == Normalize(s) && Agree(s, ld, st)
    ensures Agree(s, LoadLines(ld, SaveLine(s, st, line)), SaveState(st, line))
  {
    hide LineKey, Normalize, LoadLine, KeyLine, MissingLines;
    var info := LineKey(line, st.section);
    if info.header {
      var missing := MissingLines(s, st.section, st.seen, 0);
      AgreeOnMissing(s, ld, st, st.seen, 0);
      LoadAppends(ld, missing, [line]);
      LoadOne(LoadLines(ld, missing), line);
      AgreeOnOther(s, LoadLines(ld, missing), Finished(st), line);
    } else if info.key < 0 {
      assert SaveLine(s, st, line) == [line];
      LoadOne(ld, line);
      AgreeOnOther(s, ld, st, line);
    } else if info.key !in st.seen {
      LoadOne(ld, KeyLine(s, info.key));
      AgreeOnKeyLine(s, ld, st, info.key);
    }
  }

  lemma {:induction false} AgreeOnLines(s: Settings, ld: Loading, st: Saving, lines: seq<string>)
    requires Writable(s) && s == Normalize(s) && Agree(s, ld, st)
    ensures Agree(s, LoadLines(ld, SaveLines(s, st, lines)), SaveStates(st, lines))
    decreases |lines|
  {
    hide SaveLine, SaveState, Normalize, Agree, LoadLine;
    if lines != [] {
      var o := SaveLine(s, st, lines[0]);
      AgreeOnLine(s, ld, st, lines[0]);
      AgreeOnLines(s, LoadLines(ld, o), SaveState(st, lines[0]), lines[1..]);
      LoadAppends(ld, o, SaveLines(s, SaveState(st, lines[0]), lines[1..]));
    }
  }

  lemma AgreeOnAppended(s: Settings, ld: Loading, st: Saving, section: int)
    requires Writable(s) && s == Normalize(s) && Agree(s, ld, st) && 0 <= section <= 1
    ensures Agree(s, LoadLines(ld, AppendedSection(s, st, section)), WithSection(st, section))
  {
    if section !in st.sectionSeen {
      var missing, header := MissingLines(s, section, st.seen, 0), HeaderLine(section);
      BlankLineMeans(st.section);
      HeaderLineMeans(section, st.section);
      hide LineKey, Normalize, LoadLine, MissingLines, HeaderLine;
      var ld1 := LoadLine(ld, "");
      var ld2 := LoadLine(ld1, header);
      AgreeOnOther(s, ld, st, "");
      AgreeOnOther(s, ld1, st, header);
      var st' := st.(section := section);
      AgreeOnMissing(s, ld2, st', st'.seen, 0);
      var lines := ["", header] + missing;
      assert lines[1..] == [header] + missing && lines[1..][1..] == missing;
      assert LoadLines(ld, lines) == LoadLines(ld2, missing);
    }
  }

  // Loading what was saved gives the saved settings, normalized: for every
  // file there was before and every settings value.
  lemma SaveThenLoad(text: string, settings: Settings)
    ensures LoadText(SaveText(text, settings)) == Normalize(settings)
  {
    var s, lines := Normalize(settings), Lines(text);
    NormalizedIsWritable(settings);
    NormalizeTwice(settings);
    var st := SaveStates(SAVE_START, lines);
    var body, end := SaveLines(s, SAVE_START, lines), SaveEnd(s, st);
    LinesAreLines(text);
    SavedAreLines(s, lines);
    LinesOfJoin(SavedLines(s, lines));
    hide Normalize, SaveLines, SaveStates, MissingLines, AppendedSection, Lines;
    AgreeOnLines(s, LOAD_START, SAVE_START, lines);
    var ld := LoadLines(LOAD_START, body);
    LoadAppends(LOAD_START, body, end);
    AgreeOnEnd(s, ld, st);
    StatesStayTracked(SAVE_START, lines);
    EverythingSeen(st);
    var final := LoadLines(ld, end);
    assert final.s == s;
  }

  lemma NormalizeTwice(s: Settings)
    ensures Normalize(Normalize(s)) == Normalize(s)
  {
  }

  lemma AgreeOnEnd(s: Settings, ld: Loading, st: Saving)
    requires Writable(s) && s == Normalize(s) && Agree(s, ld, st)
    ensures Agree(s, LoadLines(ld, SaveEnd(s, st)), EndState(st))
  {
    hide Normalize, MissingLines, AppendedSection, Agree, WithSection, LoadLines;
    var a := MissingLines(s, st.section, st.seen, 0);
    var b, c := AppendedSection(s, Finished(st), VIDEO), AppendedSection(s, Finished(st), AUDIO);
    assert SaveEnd(s, st) == a + b + c;
    LoadAppends(ld, a + b, c);
    LoadAppends(ld, a, b);
    AgreeOnMissing(s, ld, st, st.seen, 0);
    AgreeOnAppended(s, LoadLines(ld, a), Finished(st), VIDEO);
    AudioAfterVideo(s, Finished(st));
    AgreeOnAppended(s, LoadLines(ld, a + b), WithSection(Finished(st), VIDEO), AUDIO);
  }

  // Appending the Video section does not change what Audio still needs.
  lemma AudioAfterVideo(s: Settings, st: Saving)
    requires Writable(s)
    ensures AppendedSection(s, WithSection(st, VIDEO), AUDIO) == AppendedSection(s, st, AUDIO)
  {
    if VIDEO !in st.sectionSeen {
      MissingDependsOnSection(s, AUDIO, st.seen, st.seen + SectionKeys(VIDEO), 0);
    }
  }

  lemma {:induction false} MissingDependsOnSection(s: Settings, section: int, seen: set<int>, seen': set<int>, i: nat)
    requires Writable(s) && i <= KEY_COUNT
    requires forall key | 0 <= key < KEY_COUNT && KeySection(key) == section :: key in seen <==> key in seen'
    ensures MissingLines(s, section, seen, i) == MissingLines(s, section, seen', i)
    decreases KEY_COUNT - i
  {
    if i < KEY_COUNT {
      MissingDependsOnSection(s, section, seen, seen', i + 1);
    }
  }

  // ------------------------------------------------ nothing but lines out

  lemma {:induction false} MissingAreLines(s: Settings, section: int, seen: set<int>, i: nat)
    requires Writable(s) && i <= KEY_COUNT
    ensures AreLines(MissingLines(s, section, seen, i))
    decreases KEY_COUNT - i
  {
    hide KeyLine, IsLine;
    if i < KEY_COUNT {
      KeyLineMeans(s, i);
      MissingAreLines(s, section, seen, i + 1);
    }
  }

  lemma SavedLineIsLines(s: Settings, st: Saving, line: string)
    requires Writable(s) && IsLine(line)
    ensures AreLines(SaveLine(s, st, line))
  {
    hide LineKey, KeyLine, IsLine, MissingLines;
    MissingAreLines(s, st.section, st.seen, 0);
    var info := LineKey(line, st.section);
    if info.key >= 0 {
      KeyLineMeans(s, info.key);
    }
  }

  lemma {:induction false} BodyAreLines(s: Settings, st: Saving, lines: seq<string>)
    requires Writable(s) && AreLines(lines)
    ensures AreLines(SaveLines(s, st, lines))
    decreases |lines|
  {
    hide SaveLine, SaveState, IsLine;
    if lines != [] {
      SavedLineIsLines(s, st, lines[0]);
      BodyAreLines(s, SaveState(st, lines[0]), lines[1..]);
    }
  }

  lemma AppendedAreLines(s: Settings, st: Saving, section: int)
    requires Writable(s) && 0 <= section <= 1
    ensures AreLines(AppendedSection(s, st, section))
  {
    MissingAreLines(s, section, st.seen, 0);
    HeaderLineMeans(section, -1);
    hide MissingLines, HeaderLine, LineKey;
  }

  lemma SavedAreLines(s: Settings, lines: seq<string>)
    requires Writable(s) && AreLines(lines)
    ensures AreLines(SavedLines(s, lines))
  {
    hide SaveLines, SaveStates, MissingLines, AppendedSection, IsLine;
    var st := SaveStates(SAVE_START, lines);
    BodyAreLines(s, SAVE_START, lines);
    MissingAreLines(s, st.section, st.seen, 0);
    AppendedAreLines(s, Finished(st), VIDEO);
    AppendedAreLines(s, Finished(st), AUDIO);
  }

  // ------------------------------------------------- field by field

  // What the loader accepts for each field, in the order of the names.
  predicate InRanges(s: Settings) {
    && 640 <= s[0] <= 7680 && 480 <= s[1] <= 4320 && 0 <= s[2] <= 1 && 1 <= s[3] <= 4 && 0 <= s[4] <= 1
    && 0 <= s[5] <= 1 && 0 <= s[6] <= 1 && 0 <= s[7] <= 1 && 60 <= s[8] <= 240 && 0 <= s[9] <= 100 && 0 <= s[10] <= 1
  }

  // Settings in their ranges come back as they were.
  lemma ValidSettingsComeBack(text: string, s: Settings)
    requires InRanges(s)
    ensures LoadText(SaveText(text, s)) == s
  {
    hide LoadText, SaveText;
    SaveThenLoad(text, s);
    assert Normalize(s) == s;
  }

  // The nearest number of a range.
  predicate Nearest(r: int, n: int, low: int, high: int) {
    low <= r <= high && (low <= n <= high ==> r == n) && (n < low ==> r == low) && (n > high ==> r == high)
  }

  // Any settings come back in their ranges: a number as the nearest one, a truth
  // value as 0 exactly where it was 0.
  lemma SettingsComeBack(text: string, s: Settings)
    ensures var r := LoadText(SaveText(text, s));
            && InRanges(r)
            && Nearest(r[0], s[0], 640, 7680) && Nearest(r[1], s[1], 480, 4320) && Nearest(r[3], s[3], 1, 4)
            && Nearest(r[4], s[4], 0, 1) && Nearest(r[5], s[5], 0, 1) && Nearest(r[6], s[6], 0, 1)
            && Nearest(r[8], s[8], 60, 240) && Nearest(r[9], s[9], 0, 100)
            && (r[2] == 0 <==> s[2] == 0) && (r[7] == 0 <==> s[7] == 0) && (r[10] == 0 <==> s[10] == 0)
  {
    hide LoadText, SaveText;
    SaveThenLoad(text, s);
  }
}
