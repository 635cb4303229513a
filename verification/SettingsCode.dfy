// The loader and the rewriter as the loops they are.
module SettingsCode {
  import opened SettingsText
  import opened SettingsFile
  import opened SettingsRoundTrip

  method FindKeyIndex(name: string, section: int) returns (key: int)
    ensures key == FindKey(name, section, 0)
  {
    for i := 0 to KEY_COUNT
      invariant FindKey(name, section, 0) == FindKey(name, section, i)
    {
      if KeySection(i) == section && EqualNoCase(name, NAMES[i]) {
        return i;
      }
    }
    return -1;
  }

  method FindChar(line: string, p: nat, c: char) returns (q: nat)
    requires p <= |line|
    ensures p <= q <= |line| && q - p == IndexOf(line[p..], c)
  {
    q := p;
    while q < |line| && line[q] != c
      invariant p <= q <= |line| && c !in line[p..q]
    {
      q := q + 1;
    }
    assert line[p..][..q - p] == line[p..q];
    IndexIsFirst(line[p..], c, q - p);
  }

  method SkipSpaces(line: string, p: nat, end: nat) returns (r: nat)
    requires p <= end <= |line|
    ensures p <= r <= end && LStrip(line[p..end]) == line[r..end]
  {
    r := p;
    while r < end && IsSpace(line[r])
      invariant p <= r <= end && LStrip(line[p..end]) == LStrip(line[r..end])
    {
      assert line[r..end][1..] == line[r + 1..end];
      r := r + 1;
    }
  }

  method TrimSpaces(line: string, p: nat, end: nat) returns (q: nat)
    requires p <= end <= |line|
    ensures p <= q <= end && RStrip(line[p..end]) == line[p..q]
  {
    q := end;
    while q > p && IsSpace(line[q - 1])
      invariant p <= q <= end && RStrip(line[p..end]) == RStrip(line[p..q])
    {
      assert line[p..q][..q - p - 1] == line[p..q - 1];
      q := q - 1;
    }
  }

  // From the '[' at p on.
  method ScanHeader(line: string, p: nat, section: int) returns (info: LineInfo)
    requires p < |line| && line[p] == '['
    ensures var rest := line[p..];
            var q := IndexOf(rest[1..], ']');
            info == if q == |rest| - 1 then LineInfo(-1, section, false, "")
                    else LineInfo(-1, SectionOf(LStrip(RStrip(rest[1..][..q]))), true, "")
  {
    hide LStrip, RStrip, IndexOf, SectionOf;
    var q := FindChar(line, p + 1, ']');
    assert line[p..][1..] == line[p + 1..];
    if q == |line| {
      return LineInfo(-1, section, false, "");
    }
    assert line[p + 1..][..q - p - 1] == line[p + 1..q];
    var end := TrimSpaces(line, p + 1, q);
    var start := SkipSpaces(line, p + 1, end);
    return LineInfo(-1, SectionOf(line[start..end]), true, "");
  }

  method ScanAssignment(line: string, p: nat, section: int) returns (info: LineInfo)
    requires p < |line|
    ensures var rest := line[p..];
            var q := IndexOf(rest, '=');
            info == if q == |rest| then LineInfo(-1, section, false, "")
                    else LineInfo(FindKey(RStrip(rest[..q]), section, 0), section, false, rest[q + 1..])
  {
    hide RStrip, IndexOf, FindKey;
    var q := FindChar(line, p, '=');
    if q == |line| {
      return LineInfo(-1, section, false, "");
    }
    assert line[p..][..q - p] == line[p..q] && line[p..][q - p + 1..] == line[q + 1..];
    var end := TrimSpaces(line, p, q);
    var key := FindKeyIndex(line[p..end], section);
    return LineInfo(key, section, false, line[q + 1..]);
  }

  method ScanLine(line: string, section: int) returns (info: LineInfo)
    ensures info == LineKey(line, section)
  {
    hide LStrip, RStrip, IndexOf, SectionOf, FindKey;
    var p := if |line| >= 3 && line[..3] == BOM then 3 else 0;
    assert line[p..|line|] == line[p..] == SkipBom(line);
    p := SkipSpaces(line, p, |line|);
    assert line[p..|line|] == line[p..] == LStrip(SkipBom(line));
    if p == |line| || StartsComment(line[p]) {
      return LineInfo(-1, section, false, "");
    }
    if line[p] == '[' {
      info := ScanHeader(line, p, section);
    } else {
      info := ScanAssignment(line, p, section);
    }
  }

  function AfterLine(text: string, end: nat): nat { if end < |text| then end + 1 else end }

  // The end of the line that starts at p.
  method LineEnd(text: string, p: nat) returns (end: nat)
    requires p < |text|
    ensures p <= end <= |text| && p < AfterLine(text, end) <= |text|
    ensures Lines(text[p..]) == [text[p..end]] + Lines(text[AfterLine(text, end)..])
  {
    end := FindChar(text, p, '\n');
    assert text[p..][..end - p] == text[p..end];
    if end < |text| {
      assert text[p..][end - p + 1..] == text[end + 1..];
    } else {
      assert text[p..end] == text[p..] && text[end..] == "";
    }
  }

  // A number read for a key.
  method StoreKey(s: Settings, targetSeen: bool, legacyHz: int, key: int, number: int)
    returns (s': Settings, targetSeen': bool, legacyHz': int)
    requires 0 <= key < KEY_COUNT
    ensures forall section ::
              Loading(s', section, targetSeen', legacyHz') ==
              SetKey(Loading(s, section, targetSeen, legacyHz), key, number)
  {
    s', targetSeen', legacyHz' := s[key := number], targetSeen, legacyHz;
    if key == INTERPOLATION_KEY {
      s' := s'[INTERPOLATION_KEY := if number > 0 then 1 else 0];
      if number > 1 {
        legacyHz' := number;
      }
    }
    if key == TARGET_KEY {
      targetSeen' := true;
    }
  }

  // `saturn_settings_load`, from the text of an existing file.
  method LoadSettings(text: string) returns (s: Settings)
    ensures s == LoadText(text)
  {
    hide SetKey, ReadNumber, LineKey;
    s := DEFAULTS;
    var section, targetSeen, legacyHz := -1, false, 0;
    var p := 0;
    assert text[0..] == text;
    while p < |text|
      invariant p <= |text|
      invariant LoadLines(LOAD_START, Lines(text)) ==
                LoadLines(Loading(s, section, targetSeen, legacyHz), Lines(text[p..]))
    {
      ghost var st := Loading(s, section, targetSeen, legacyHz);
      var end := LineEnd(text, p);
      ghost var lines := Lines(text[p..]);
      assert lines[0] == text[p..end] && lines[1..] == Lines(text[AfterLine(text, end)..]);
      var info := ScanLine(text[p..end], section);
      section := info.section;
      if info.key >= 0 {
        var number := ReadNumber(info.value);
        if number.Some? {
          s, targetSeen, legacyHz := StoreKey(s, targetSeen, legacyHz, info.key, number.value);
          assert Loading(s, section, targetSeen, legacyHz) == SetKey(st.(section := section), info.key, number.value);
        }
      }
      assert Loading(s, section, targetSeen, legacyHz) == LoadLine(st, text[p..end]);
      p := AfterLine(text, end);
    }
    assert text[p..] == "";
    if !targetSeen && legacyHz != 0 {
      s := s[TARGET_KEY := legacyHz];
    }
    s := Normalize(s);
  }

  // `finish_section`: what it writes, and the bits it sets.
  method FinishSection(s: Settings, section: int, seen: set<int>) returns (out: string, seen': set<int>)
    requires Writable(s)
    ensures out == Join(MissingLines(s, section, seen, 0))
    ensures seen' == seen + SectionKeys(section)
  {
    hide KeyLine;
    out, seen' := "", seen;
    if section < 0 {
      NoKeysOutside(s, section, seen, 0);
      return;
    }
    for i := 0 to KEY_COUNT
      invariant Join(MissingLines(s, section, seen, 0)) == out + Join(MissingLines(s, section, seen, i))
      invariant forall k :: k in seen' <==> k in seen || (0 <= k < i && KeySection(k) == section)
    {
      MissingUnfolds(s, section, seen, i);
      if KeySection(i) == section && i !in seen' {
        out := out + (KeyLine(s, i) + "\n");
        seen' := seen' + {i};
      }
    }
    assert forall k :: k in seen' <==> k in seen + SectionKeys(section);
  }

  lemma MissingUnfolds(s: Settings, section: int, seen: set<int>, i: nat)
    requires Writable(s) && i < KEY_COUNT
    ensures Join(MissingLines(s, section, seen, i)) ==
            (if KeySection(i) == section && i !in seen then KeyLine(s, i) + "\n" else "") +
            Join(MissingLines(s, section, seen, i + 1))
  {
    hide KeyLine;
    if KeySection(i) == section && i !in seen {
      var lines := MissingLines(s, section, seen, i);
      assert lines[0] == KeyLine(s, i) && lines[1..] == MissingLines(s, section, seen, i + 1);
    } else {
      assert "" + Join(MissingLines(s, section, seen, i + 1)) == Join(MissingLines(s, section, seen, i + 1));
    }
  }

  lemma {:induction false} NoKeysOutside(s: Settings, section: int, seen: set<int>, i: nat)
    requires Writable(s) && section < 0 && i <= KEY_COUNT
    ensures MissingLines(s, section, seen, i) == [] && SectionKeys(section) == {}
    decreases KEY_COUNT - i
  {
    if i < KEY_COUNT {
      NoKeysOutside(s, section, seen, i + 1);
    }
  }

  // What one line of the old text turns into.
  method WriteLine(s: Settings, st: Saving, line: string) returns (out: string, st': Saving)
    requires Writable(s)
    ensures out == Join(SaveLine(s, st, line)) && st' == SaveState(st, line)
  {
    hide LineKey, KeyLine, MissingLines, Join;
    BytesOfLine(s, st, line);
    var seen, sectionSeen := st.seen, st.sectionSeen;
    out := "";
    var info := ScanLine(line, st.section);
    if info.header {
      var missing;
      missing, seen := FinishSection(s, st.section, seen);
      out := out + missing;
      if info.section >= 0 {
        sectionSeen := sectionSeen + {info.section};
      }
    }
    if info.key < 0 {
      out := out + line + "\n";
    } else if info.key !in seen {
      out := out + KeyLine(s, info.key) + "\n";
      seen := seen + {info.key};
    }
    st' := Saving(info.section, seen, sectionSeen);
    assert info.key in st.seen ==> st.seen + {info.key} == st.seen;
  }

  // What is appended after the last line.
  method WriteEnd(s: Settings, st: Saving) returns (out: string)
    requires Writable(s)
    ensures out == Join(SaveEnd(s, st))
  {
    hide MissingLines, Join, HeaderLine, AppendedSection, SaveEnd;
    BytesOfEnd(s, st);
    var t := Finished(st);
    var seen;
    out, seen := FinishSection(s, st.section, st.seen);
    ghost var first := out;
    for i := 0 to 2
      invariant forall key | 0 <= key < KEY_COUNT && KeySection(key) >= i :: key in seen <==> key in t.seen
      invariant out == first + (if i > 0 then Join(AppendedSection(s, t, VIDEO)) else "") +
                               (if i > 1 then Join(AppendedSection(s, t, AUDIO)) else "")
    {
      BytesOfSection(s, t, i);
      if i !in st.sectionSeen {
        MissingDependsOnSection(s, i, t.seen, seen, 0);
        var added;
        added, seen := FinishSection(s, i, seen);
        out := out + ("\n" + HeaderLine(i) + "\n" + added);
      }
    }
  }

  // `saturn_settings_save`: the bytes of the new file. A missing file is an
  // empty text.
  method SaveSettings(settings: Settings, text: string) returns (out: string)
    ensures out == SaveText(text, settings)
  {
    hide SaveLine, SaveState, SaveEnd, Normalize, Writable;
    var s := Normalize(settings);
    NormalizedIsWritable(settings);
    var st := SAVE_START;
    out := "";
    var p := 0;
    assert text[0..] == text;
    while p < |text|
      invariant p <= |text| && Writable(s)
      invariant Join(SaveLines(s, SAVE_START, Lines(text))) == out + Join(SaveLines(s, st, Lines(text[p..])))
      invariant SaveStates(SAVE_START, Lines(text)) == SaveStates(st, Lines(text[p..]))
    {
      var end := LineEnd(text, p);
      StepOver(s, st, text[p..end], Lines(text[AfterLine(text, end)..]));
      var bytes;
      bytes, st := WriteLine(s, st, text[p..end]);
      out := out + bytes;
      p := AfterLine(text, end);
    }
    assert text[p..] == "";
    JoinAppends(SaveLines(s, SAVE_START, Lines(text)), SaveEnd(s, st));
    var end := WriteEnd(s, st);
    out := out + end;
  }

  lemma StepOver(s: Settings, st: Saving, line: string, rest: seq<string>)
    requires Writable(s)
    ensures SaveStates(st, [line] + rest) == SaveStates(SaveState(st, line), rest)
    ensures Join(SaveLines(s, st, [line] + rest)) ==
            Join(SaveLine(s, st, line)) + Join(SaveLines(s, SaveState(st, line), rest))
  {
    hide SaveLine, SaveState;
    var lines := [line] + rest;
    assert lines[0] == line && lines[1..] == rest;
    JoinAppends(SaveLine(s, st, line), SaveLines(s, SaveState(st, line), rest));
  }

  lemma BytesOfLine(s: Settings, st: Saving, line: string)
    requires Writable(s)
    ensures var info := LineKey(line, st.section);
            Join(SaveLine(s, st, line)) ==
            if info.key >= 0 then (if info.key in st.seen then "" else KeyLine(s, info.key) + "\n")
            else (if info.header then Join(MissingLines(s, st.section, st.seen, 0)) else "") + line + "\n"
  {
    hide LineKey, MissingLines, KeyLine;
    var info := LineKey(line, st.section);
    JoinAppends(MissingLines(s, st.section, st.seen, 0), [line]);
    JoinOne(line);
    if info.key >= 0 {
      JoinOne(KeyLine(s, info.key));
    }
  }

  lemma JoinOne(line: string)
    ensures Join([line]) == line + "\n"
  {
    assert Join([line][1..]) == "";
  }

  lemma BytesOfSection(s: Settings, st: Saving, section: int)
    requires Writable(s) && 0 <= section <= 1
    ensures Join(AppendedSection(s, st, section)) ==
            if section in st.sectionSeen then ""
            else "\n" + HeaderLine(section) + "\n" + Join(MissingLines(s, section, st.seen, 0))
  {
    hide MissingLines, HeaderLine;
    var missing := MissingLines(s, section, st.seen, 0);
    JoinOne("");
    JoinOne(HeaderLine(section));
    JoinAppends([""], [HeaderLine(section)]);
    JoinAppends(["", HeaderLine(section)], missing);
    assert [""] + [HeaderLine(section)] == ["", HeaderLine(section)];
  }

  lemma BytesOfEnd(s: Settings, st: Saving)
    requires Writable(s)
    ensures var t := Finished(st);
            Join(SaveEnd(s, st)) == Join(MissingLines(s, st.section, st.seen, 0)) +
            Join(AppendedSection(s, t, VIDEO)) + Join(AppendedSection(s, t, AUDIO))
  {
    hide MissingLines, AppendedSection, Join;
    var t := Finished(st);
    var a, b, c := MissingLines(s, st.section, st.seen, 0), AppendedSection(s, t, VIDEO), AppendedSection(s, t, AUDIO);
    JoinAppends(a + b, c);
    JoinAppends(a, b);
  }
}
