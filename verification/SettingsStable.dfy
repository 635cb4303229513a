// What saving leaves alone, and what saving again does.
module SettingsStable {
  import opened SettingsText
  import opened SettingsFile
  import opened SettingsRoundTrip

  // ------------------------------------------------- walking a saved text

  lemma {:induction false} SaveLinesAppend(s: Settings, st: Saving, a: seq<string>, b: seq<string>)
    requires Writable(s)
    ensures SaveLines(s, st, a + b) == SaveLines(s, st, a) + SaveLines(s, SaveStates(st, a), b)
    ensures SaveStates(st, a + b) == SaveStates(SaveStates(st, a), b)
    decreases |a|
  {
    hide SaveLine, SaveState;
    if a == [] {
      assert a + b == b;
    } else {
      assert (a + b)[1..] == a[1..] + b && (a + b)[0] == a[0];
      SaveLinesAppend(s, SaveState(st, a[0]), a[1..], b);
    }
  }

  lemma SaveOne(s: Settings, st: Saving, line: string)
    requires Writable(s)
    ensures SaveLines(s, st, [line]) == SaveLine(s, st, line)
    ensures SaveStates(st, [line]) == SaveState(st, line)
  {
    hide SaveLine, SaveState;
    assert SaveLines(s, SaveState(st, line), []) == [];
    assert [line][1..] == [];
    assert SaveLine(s, st, line) + [] == SaveLine(s, st, line);
  }

  // A key line written by one save is rewritten in place by the next.
  lemma ResaveKeyLine(s: Settings, s': Settings, st: Saving, key: int)
    requires Writable(s) && Writable(s') && 0 <= key < KEY_COUNT && KeySection(key) == st.section
    requires key !in st.seen
    ensures SaveLine(s', st, KeyLine(s, key)) == [KeyLine(s', key)]
    ensures SaveState(st, KeyLine(s, key)) == st.(seen := st.seen + {key})
  {
    KeyLineMeans(s, key);
    hide KeyLine, LineKey;
  }

  lemma {:induction false} ResaveMissing(s: Settings, s': Settings, st: Saving, seen: set<int>, i: nat)
    requires Writable(s) && Writable(s') && i <= KEY_COUNT && seen <= st.seen
    requires forall key | 0 <= key < KEY_COUNT && KeySection(key) == st.section ::
               key in st.seen <==> key in seen || key < i
    ensures SaveLines(s', st, MissingLines(s, st.section, seen, i)) == MissingLines(s', st.section, seen, i)
    ensures SaveStates(st, MissingLines(s, st.section, seen, i)) == Finished(st)
    decreases KEY_COUNT - i
  {
    hide KeyLine, LineKey, SaveLine, SaveState;
    if i == KEY_COUNT {
      assert Finished(st) == st;
    } else if KeySection(i) == st.section && i !in seen {
      var st' := st.(seen := st.seen + {i});
      ResaveKeyLine(s, s', st, i);
      ResaveMissing(s, s', st', seen, i + 1);
      assert Finished(st') == Finished(st);
      var lines := MissingLines(s, st.section, seen, i);
      assert lines[0] == KeyLine(s, i) && lines[1..] == MissingLines(s, st.section, seen, i + 1);
    } else {
      ResaveMissing(s, s', st, seen, i + 1);
    }
  }

  lemma {:induction false} NothingMissing(s: Settings, section: int, seen: set<int>, i: nat)
    requires Writable(s) && i <= KEY_COUNT
    requires SectionKeys(section) <= seen
    ensures MissingLines(s, section, seen, i) == []
    decreases KEY_COUNT - i
  {
    if i < KEY_COUNT {
      assert KeySection(i) == section ==> i in SectionKeys(section);
      NothingMissing(s, section, seen, i + 1);
    }
  }

  lemma ResaveLine(s: Settings, s': Settings, st: Saving, line: string)
    requires Writable(s) && Writable(s')
    ensures SaveLines(s', st, SaveLine(s, st, line)) == SaveLine(s', st, line)
    ensures SaveStates(st, SaveLine(s, st, line)) == SaveState(st, line)
  {
    hide LineKey, KeyLine, MissingLines, SaveLines, SaveStates;
    var info := LineKey(line, st.section);
    if info.header {
      var missing := MissingLines(s, st.section, st.seen, 0);
      ResaveMissing(s, s', st, st.seen, 0);
      SaveLinesAppend(s', st, missing, [line]);
      SaveOne(s', Finished(st), line);
      NothingMissing(s', st.section, Finished(st).seen, 0);
      assert SaveState(Finished(st), line) == SaveState(st, line);
      assert SaveLine(s', Finished(st), line) == [] + [line];
    } else if info.key < 0 {
      assert SaveLine(s, st, line) == [line];
      SaveOne(s', st, line);
    } else if info.key !in st.seen {
      SaveOne(s', st, KeyLine(s, info.key));
      ResaveKeyLine(s, s', st, info.key);
    } else {
      assert SaveState(st, line) == st;
      NothingToSave(s', st);
    }
  }

  lemma NothingToSave(s: Settings, st: Saving)
    requires Writable(s)
    ensures SaveLines(s, st, []) == [] && SaveStates(st, []) == st
  {
  }

  lemma {:induction false} ResaveLines(s: Settings, s': Settings, st: Saving, lines: seq<string>)
    requires Writable(s) && Writable(s')
    ensures SaveLines(s', st, SaveLines(s, st, lines)) == SaveLines(s', st, lines)
    ensures SaveStates(st, SaveLines(s, st, lines)) == SaveStates(st, lines)
    decreases |lines|
  {
    hide SaveLine, SaveState;
    if lines != [] {
      var st', o := SaveState(st, lines[0]), SaveLine(s, st, lines[0]);
      ResaveLine(s, s', st, lines[0]);
      ResaveLines(s, s', st', lines[1..]);
      SaveLinesAppend(s', st, o, SaveLines(s, st', lines[1..]));
    }
  }

  lemma ResaveHeader(s: Settings, st: Saving, section: int)
    requires Writable(s) && 0 <= section <= 1 && SectionKeys(st.section) <= st.seen
    ensures SaveLines(s, st, ["", HeaderLine(section)]) == ["", HeaderLine(section)]
    ensures SaveStates(st, ["", HeaderLine(section)]) == Saving(section, st.seen, st.sectionSeen + {section})
  {
    var header := HeaderLine(section);
    BlankLineMeans(st.section);
    HeaderLineMeans(section, st.section);
    NothingMissing(s, st.section, st.seen, 0);
    hide LineKey, MissingLines, SaveLines, SaveStates, HeaderLine;
    assert st.seen + SectionKeys(st.section) == st.seen;
    assert SaveState(st, "") == st && SaveLine(s, st, "") == [""];
    SaveOne(s, st, "");
    SaveOne(s, st, header);
    SaveLinesAppend(s, st, [""], [header]);
    assert [""] + [header] == ["", header];
  }

  lemma ResaveAppended(s: Settings, s': Settings, st: Saving, section: int)
    requires Writable(s) && Writable(s') && 0 <= section <= 1
    requires SectionKeys(st.section) <= st.seen
    ensures SaveLines(s', st, AppendedSection(s, st, section)) == AppendedSection(s', st, section)
    ensures SaveStates(st, AppendedSection(s, st, section)) == WithSection(st, section)
  {
    hide MissingLines, SaveLines, SaveStates, HeaderLine;
    if section in st.sectionSeen {
      NothingToSave(s', st);
    } else {
      var st' := Saving(section, st.seen, st.sectionSeen + {section});
      ResaveHeader(s', st, section);
      ResaveMissing(s, s', st', st.seen, 0);
      SaveLinesAppend(s', st, ["", HeaderLine(section)], MissingLines(s, section, st.seen, 0));
    }
  }

  lemma ResaveEnd(s: Settings, s': Settings, st: Saving)
    requires Writable(s) && Writable(s')
    ensures SaveLines(s', st, SaveEnd(s, st)) == SaveEnd(s', st)
    ensures SaveStates(st, SaveEnd(s, st)) == EndState(st)
  {
    hide MissingLines, AppendedSection, SaveLines, SaveStates;
    var t := Finished(st);
    var a, b, c := MissingLines(s, st.section, st.seen, 0), AppendedSection(s, t, VIDEO), AppendedSection(s, t, AUDIO);
    ResaveMissing(s, s', st, st.seen, 0);
    ResaveAppended(s, s', t, VIDEO);
    AudioAfterVideo(s, t);
    AudioAfterVideo(s', t);
    ResaveAppended(s, s', WithSection(t, VIDEO), AUDIO);
    SaveLinesAppend(s', st, a + b, c);
    SaveLinesAppend(s', st, a, b);
  }

  // Once everything is in place, nothing is left to append.
  lemma NothingToAppend(s: Settings, st: Saving)
    requires Writable(s)
    ensures SaveEnd(s, EndState(st)) == []
  {
    var t := EndState(st);
    assert VIDEO in t.sectionSeen && AUDIO in t.sectionSeen;
    assert SectionKeys(t.section) <= t.seen;
    NothingMissing(s, t.section, t.seen, 0);
  }

  // The last save wins, and leaves no trace of the ones before it.
  lemma SaveOverSave(text: string, first: Settings, second: Settings)
    ensures SaveText(SaveText(text, first), second) == SaveText(text, second)
  {
    var s, s', lines := Normalize(first), Normalize(second), Lines(text);
    NormalizedIsWritable(first);
    NormalizedIsWritable(second);
    LinesAreLines(text);
    SavedAreLines(s, lines);
    LinesOfJoin(SavedLines(s, lines));
    hide Normalize, Lines, Join, SaveLines, SaveStates, SaveEnd;
    var st := SaveStates(SAVE_START, lines);
    ResaveLines(s, s', SAVE_START, lines);
    ResaveEnd(s, s', st);
    SaveLinesAppend(s', SAVE_START, SaveLines(s, SAVE_START, lines), SaveEnd(s, st));
    NothingToAppend(s', st);
    assert SavedLines(s', SavedLines(s, lines)) == SavedLines(s', lines);
  }

  lemma SavingAgainChangesNothing(text: string, s: Settings)
    ensures SaveText(SaveText(text, s), s) == SaveText(text, s)
  {
    hide SaveText;
    SaveOverSave(text, s, s);
  }

  // ---------------------------------------------------- the other lines

  // The lines that set no key, with the section they are read in.
  function OtherLines(section: int, lines: seq<string>): seq<string>
    decreases |lines|
  {
    if lines == [] then [] else
    var info := LineKey(lines[0], section);
    (if info.key < 0 then [lines[0]] else []) + OtherLines(info.section, lines[1..])
  }

  function SectionAfter(section: int, lines: seq<string>): int
    decreases |lines|
  {
    if lines == [] then section else SectionAfter(LineKey(lines[0], section).section, lines[1..])
  }

  lemma {:induction false} OtherLinesAppend(section: int, a: seq<string>, b: seq<string>)
    ensures OtherLines(section, a + b) == OtherLines(section, a) + OtherLines(SectionAfter(section, a), b)
    ensures SectionAfter(section, a + b) == SectionAfter(SectionAfter(section, a), b)
    decreases |a|
  {
    hide LineKey;
    if a == [] {
      assert a + b == b;
    } else {
      assert (a + b)[1..] == a[1..] + b && (a + b)[0] == a[0];
      OtherLinesAppend(LineKey(a[0], section).section, a[1..], b);
    }
  }

  lemma OtherOne(section: int, line: string)
    ensures OtherLines(section, [line]) == if LineKey(line, section).key < 0 then [line] else []
    ensures SectionAfter(section, [line]) == LineKey(line, section).section
  {
    hide LineKey;
    assert [line][1..] == [];
    assert OtherLines(LineKey(line, section).section, []) == [];
  }

  lemma {:induction false} NoOtherInMissing(s: Settings, section: int, seen: set<int>, i: nat)
    requires Writable(s) && i <= KEY_COUNT
    ensures OtherLines(section, MissingLines(s, section, seen, i)) == []
    ensures SectionAfter(section, MissingLines(s, section, seen, i)) == section
    decreases KEY_COUNT - i
  {
    hide KeyLine, LineKey;
    if i < KEY_COUNT {
      NoOtherInMissing(s, section, seen, i + 1);
      if KeySection(i) == section && i !in seen {
        KeyLineMeans(s, i);
        var lines := MissingLines(s, section, seen, i);
        assert lines[0] == KeyLine(s, i) && lines[1..] == MissingLines(s, section, seen, i + 1);
      }
    }
  }

  lemma OtherInSavedLine(s: Settings, st: Saving, line: string)
    requires Writable(s)
    ensures OtherLines(st.section, SaveLine(s, st, line)) == OtherLines(st.section, [line])
    ensures SectionAfter(st.section, SaveLine(s, st, line)) == SaveState(st, line).section
  {
    hide LineKey, KeyLine, MissingLines, OtherLines, SectionAfter;
    var info := LineKey(line, st.section);
    OtherOne(st.section, line);
    if info.header {
      var missing := MissingLines(s, st.section, st.seen, 0);
      NoOtherInMissing(s, st.section, st.seen, 0);
      OtherLinesAppend(st.section, missing, [line]);
    } else if info.key < 0 {
      assert SaveLine(s, st, line) == [line];
    } else if info.key !in st.seen {
      KeyLineMeans(s, info.key);
      OtherOne(st.section, KeyLine(s, info.key));
    } else {
      NothingOther(st.section);
    }
  }

  lemma NothingOther(section: int)
    ensures OtherLines(section, []) == [] && SectionAfter(section, []) == section
  {
  }

  lemma {:induction false} OtherInSavedLines(s: Settings, st: Saving, lines: seq<string>)
    requires Writable(s)
    ensures OtherLines(st.section, SaveLines(s, st, lines)) == OtherLines(st.section, lines)
    ensures SectionAfter(st.section, SaveLines(s, st, lines)) == SaveStates(st, lines).section
    decreases |lines|
  {
    hide LineKey, SaveLine, SaveState;
    if lines != [] {
      var st', o := SaveState(st, lines[0]), SaveLine(s, st, lines[0]);
      OtherInSavedLine(s, st, lines[0]);
      OtherInSavedLines(s, st', lines[1..]);
      OtherLinesAppend(st.section, o, SaveLines(s, st', lines[1..]));
      assert lines == [lines[0]] + lines[1..];
      OtherLinesAppend(st.section, [lines[0]], lines[1..]);
      OtherOne(st.section, lines[0]);
      SectionFollows(st, lines[0]);
    }
  }

  lemma SectionFollows(st: Saving, line: string)
    ensures SaveState(st, line).section == LineKey(line, st.section).section
  {
  }

  // The blank line and header of a section the file never had.
  function NewHeader(st: Saving, section: int): seq<string>
    requires 0 <= section <= 1
  {
    if section in st.sectionSeen then [] else ["", HeaderLine(section)]
  }

  lemma OtherInHeader(section: int, at: int)
    requires 0 <= section <= 1
    ensures OtherLines(at, ["", HeaderLine(section)]) == ["", HeaderLine(section)]
    ensures SectionAfter(at, ["", HeaderLine(section)]) == section
  {
    var header := HeaderLine(section);
    BlankLineMeans(at);
    HeaderLineMeans(section, at);
    hide LineKey, HeaderLine, OtherLines, SectionAfter;
    OtherOne(at, "");
    OtherOne(at, header);
    OtherLinesAppend(at, [""], [header]);
    assert [""] + [header] == ["", header];
  }

  lemma OtherInAppended(s: Settings, st: Saving, section: int, at: int)
    requires Writable(s) && 0 <= section <= 1
    ensures OtherLines(at, AppendedSection(s, st, section)) == NewHeader(st, section)
    ensures SectionAfter(at, AppendedSection(s, st, section)) == if section in st.sectionSeen then at else section
  {
    hide MissingLines, HeaderLine, OtherLines, SectionAfter;
    NothingOther(at);
    if section !in st.sectionSeen {
      OtherInHeader(section, at);
      NoOtherInMissing(s, section, st.seen, 0);
      OtherLinesAppend(at, ["", HeaderLine(section)], MissingLines(s, section, st.seen, 0));
    }
  }

  lemma OtherInEnd(s: Settings, st: Saving)
    requires Writable(s)
    ensures OtherLines(st.section, SaveEnd(s, st)) == NewHeader(st, VIDEO) + NewHeader(st, AUDIO)
  {
    hide MissingLines, AppendedSection, OtherLines, SectionAfter, HeaderLine;
    var t := Finished(st);
    var a, b, c := MissingLines(s, st.section, st.seen, 0), AppendedSection(s, t, VIDEO), AppendedSection(s, t, AUDIO);
    OtherLinesAppend(st.section, a + b, c);
    OtherLinesAppend(st.section, a, b);
    NoOtherInMissing(s, st.section, st.seen, 0);
    OtherInAppended(s, t, VIDEO, st.section);
    OtherInAppended(s, t, AUDIO, SectionAfter(st.section, b));
  }

  // Every line that sets no key survives, byte for byte and in order; the only
  // new ones are the headers of sections that were not there.
  lemma OtherLinesSurvive(text: string, settings: Settings)
    ensures var st := SaveStates(SAVE_START, Lines(text));
            OtherLines(-1, Lines(SaveText(text, settings))) ==
            OtherLines(-1, Lines(text)) + NewHeader(st, VIDEO) + NewHeader(st, AUDIO)
  {
    var s, lines := Normalize(settings), Lines(text);
    NormalizedIsWritable(settings);
    LinesAreLines(text);
    SavedAreLines(s, lines);
    LinesOfJoin(SavedLines(s, lines));
    hide Normalize, Lines, Join, SaveLines, SaveStates, SaveEnd, OtherLines, SectionAfter, NewHeader;
    var st := SaveStates(SAVE_START, lines);
    OtherInSavedLines(s, SAVE_START, lines);
    OtherInEnd(s, st);
    OtherLinesAppend(-1, SaveLines(s, SAVE_START, lines), SaveEnd(s, st));
  }

  // ------------------------------------------------------ every key, once

  function KeyCount(section: int, lines: seq<string>, key: int): nat
    decreases |lines|
  {
    if lines == [] then 0 else
    var info := LineKey(lines[0], section);
    (if info.key == key then 1 else 0) + KeyCount(info.section, lines[1..], key)
  }

  lemma {:induction false} KeyCountAppend(section: int, a: seq<string>, b: seq<string>, key: int)
    ensures KeyCount(section, a + b, key) == KeyCount(section, a, key) + KeyCount(SectionAfter(section, a), b, key)
    decreases |a|
  {
    hide LineKey;
    if a == [] {
      assert a + b == b;
    } else {
      assert (a + b)[1..] == a[1..] + b && (a + b)[0] == a[0];
      KeyCountAppend(LineKey(a[0], section).section, a[1..], b, key);
    }
  }

  lemma KeyCountOne(section: int, line: string, key: int)
    ensures KeyCount(section, [line], key) == if LineKey(line, section).key == key then 1 else 0
  {
    hide LineKey;
    assert [line][1..] == [];
    assert KeyCount(LineKey(line, section).section, [], key) == 0;
  }

  lemma {:induction false} CountInMissing(s: Settings, section: int, seen: set<int>, i: nat, key: int)
    requires Writable(s) && i <= KEY_COUNT && 0 <= key < KEY_COUNT
    ensures KeyCount(section, MissingLines(s, section, seen, i), key) ==
            if i <= key && KeySection(key) == section && key !in seen then 1 else 0
    decreases KEY_COUNT - i
  {
    hide KeyLine, LineKey;
    if i < KEY_COUNT {
      CountInMissing(s, section, seen, i + 1, key);
      if KeySection(i) == section && i !in seen {
        KeyLineMeans(s, i);
        var lines := MissingLines(s, section, seen, i);
        assert lines[0] == KeyLine(s, i) && lines[1..] == MissingLines(s, section, seen, i + 1);
      }
    }
  }

  function Fresh(before: set<int>, after: set<int>, key: int): nat {
    if key in after && key !in before then 1 else 0
  }

  lemma CountInSavedLine(s: Settings, st: Saving, line: string, key: int)
    requires Writable(s) && 0 <= key < KEY_COUNT
    ensures KeyCount(st.section, SaveLine(s, st, line), key) == Fresh(st.seen, SaveState(st, line).seen, key)
  {
    hide LineKey, KeyLine, MissingLines, KeyCount, SectionAfter;
    var info := LineKey(line, st.section);
    KeyCountOne(st.section, line, key);
    if info.header {
      var missing := MissingLines(s, st.section, st.seen, 0);
      CountInMissing(s, st.section, st.seen, 0, key);
      NoOtherInMissing(s, st.section, st.seen, 0);
      KeyCountAppend(st.section, missing, [line], key);
    } else if info.key < 0 {
      assert SaveLine(s, st, line) == [line];
    } else if info.key !in st.seen {
      KeyLineMeans(s, info.key);
      KeyCountOne(st.section, KeyLine(s, info.key), key);
    } else {
      NothingCounted(st.section, key);
    }
  }

  lemma NothingCounted(section: int, key: int)
    ensures KeyCount(section, [], key) == 0
  {
  }

  lemma {:induction false} CountInSavedLines(s: Settings, st: Saving, lines: seq<string>, key: int)
    requires Writable(s) && 0 <= key < KEY_COUNT && Tracked(st)
    ensures KeyCount(st.section, SaveLines(s, st, lines), key) == Fresh(st.seen, SaveStates(st, lines).seen, key)
    decreases |lines|
  {
    hide LineKey, SaveLine, SaveState, Tracked;
    if lines != [] {
      var st', o := SaveState(st, lines[0]), SaveLine(s, st, lines[0]);
      CountInSavedLine(s, st, lines[0], key);
      OtherInSavedLine(s, st, lines[0]);
      StateStaysTracked(st, lines[0]);
      StatesStayTracked(st', lines[1..]);
      CountInSavedLines(s, st', lines[1..], key);
      KeyCountAppend(st.section, o, SaveLines(s, st', lines[1..]), key);
    }
  }

  lemma CountInAppended(s: Settings, st: Saving, section: int, at: int, key: int)
    requires Writable(s) && 0 <= section <= 1 && 0 <= key < KEY_COUNT
    ensures KeyCount(at, AppendedSection(s, st, section), key) == Fresh(st.seen, WithSection(st, section).seen, key)
  {
    NothingCounted(at, key);
    if section !in st.sectionSeen {
      var missing, header := MissingLines(s, section, st.seen, 0), HeaderLine(section);
      BlankLineMeans(at);
      HeaderLineMeans(section, at);
      hide LineKey, MissingLines, HeaderLine, KeyCount, SectionAfter;
      KeyCountOne(at, "", key);
      KeyCountOne(at, header, key);
      OtherInHeader(section, at);
      OtherOne(at, "");
      KeyCountAppend(at, [""], [header], key);
      assert [""] + [header] == ["", header];
      CountInMissing(s, section, st.seen, 0, key);
      KeyCountAppend(at, ["", header], missing, key);
      assert key in SectionKeys(section) <==> KeySection(key) == section;
    }
  }

  lemma CountInEnd(s: Settings, st: Saving, key: int)
    requires Writable(s) && 0 <= key < KEY_COUNT
    ensures KeyCount(st.section, SaveEnd(s, st), key) == Fresh(st.seen, EndState(st).seen, key)
  {
    hide MissingLines, AppendedSection, KeyCount, SectionAfter;
    var t := Finished(st);
    var a, b, c := MissingLines(s, st.section, st.seen, 0), AppendedSection(s, t, VIDEO), AppendedSection(s, t, AUDIO);
    KeyCountAppend(st.section, a + b, c, key);
    KeyCountAppend(st.section, a, b, key);
    NoOtherInMissing(s, st.section, st.seen, 0);
    OtherInAppended(s, t, VIDEO, st.section);
    OtherLinesAppend(st.section, a, b);
    CountInMissing(s, st.section, st.seen, 0, key);
    CountInAppended(s, t, VIDEO, st.section, key);
    AudioAfterVideo(s, t);
    CountInAppended(s, WithSection(t, VIDEO), AUDIO, SectionAfter(st.section, b), key);
    assert key in SectionKeys(st.section) <==> KeySection(key) == st.section;
  }

  // Whatever duplicates or gaps the old text had, the saved file sets each
  // known key on exactly one line of its section.
  lemma EachKeyOnce(text: string, settings: Settings, key: int)
    requires 0 <= key < KEY_COUNT
    ensures KeyCount(-1, Lines(SaveText(text, settings)), key) == 1
  {
    var s, lines := Normalize(settings), Lines(text);
    NormalizedIsWritable(settings);
    LinesAreLines(text);
    SavedAreLines(s, lines);
    LinesOfJoin(SavedLines(s, lines));
    hide Normalize, Lines, Join, SaveLines, SaveStates, SaveEnd, KeyCount, SectionAfter, EndState;
    var st := SaveStates(SAVE_START, lines);
    CountInSavedLines(s, SAVE_START, lines, key);
    OtherInSavedLines(s, SAVE_START, lines);
    StatesStayTracked(SAVE_START, lines);
    EverythingSeen(st);
    CountInEnd(s, st, key);
    KeyCountAppend(-1, SaveLines(s, SAVE_START, lines), SaveEnd(s, st), key);
  }
}
