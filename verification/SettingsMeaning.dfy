// What is in a settings file: its lines as they may be typed and as they are
// written, with the names spelled out.
module SettingsMeaning {
  import opened Options
  import opened SettingsText
  import opened SettingsFile
  import opened SettingsRoundTrip

  // White space that a line can hold.
  predicate Blank(s: string) { forall i | 0 <= i < |s| :: s[i] == ' ' || s[i] == '\t' || s[i] == '\r' }

  lemma {:induction false} StripBefore(blank: string, rest: string)
    requires Blank(blank)
    ensures LStrip(blank + rest) == LStrip(rest)
  {
    if blank == "" {
      assert blank + rest == rest;
    } else {
      assert (blank + rest)[1..] == blank[1..] + rest;
      StripBefore(blank[1..], rest);
    }
  }

  lemma {:induction false} StripAfter(rest: string, blank: string)
    requires Blank(blank)
    ensures RStrip(rest + blank) == RStrip(rest)
  {
    var n := |blank| - 1;
    if blank == "" {
      assert rest + blank == rest;
    } else {
      assert (rest + blank)[..|rest + blank| - 1] == rest + blank[..n];
      StripAfter(rest, blank[..n]);
    }
  }

  // ------------------------------------------------------- a line as typed

  // A comment, a blank line and a line with no '=' say nothing.
  lemma SilentLine(before: string, rest: string, section: int)
    requires Blank(before) && (rest == "" || rest[0] == ';' || rest[0] == '#')
    ensures LineKey(before + rest, section) == LineInfo(-1, section, false, "")
  {
    NoBom(before, rest);
    StripBefore(before, rest);
    assert LStrip(rest) == rest;
  }

  lemma NoBom(before: string, rest: string)
    requires Blank(before) && (rest == "" || rest[0] as int < 128)
    ensures SkipBom(before + rest) == before + rest
  {
    var line := before + rest;
    assert |line| >= 3 ==> line[..3][0] == line[0];
    assert line != "" ==> line[0] as int < 128 by {
      assert line != "" ==> line[0] == if before == "" then rest[0] else before[0];
    }
  }

  // The byte order mark before a line is not part of it.
  lemma BomIsSkipped(line: string, section: int)
    requires SkipBom(line) == line
    ensures LineKey("\U{ef}\U{bb}\U{bf}" + line, section) == LineKey(line, section)
  {
    var bom := "\U{ef}\U{bb}\U{bf}";
    assert (bom + line)[..3] == bom && (bom + line)[3..] == line;
  }

  lemma LetterOf(c: char, d: char)
    requires ToLower(c) == ToLower(d) && 'A' <= d <= 'z'
    ensures 'A' <= c <= 'z' && (d <= 'Z' ==> c <= 'Z' || 'a' <= c)
  {
  }

  lemma NameIsLetters(name: string, key: int)
    requires 0 <= key < KEY_COUNT && EqualNoCase(name, NAMES[key])
    ensures |name| >= 3 && (forall i | 0 <= i < |name| :: 'A' <= name[i] <= 'z') && name[0] != '['
  {
    NameShape(key);
    hide NAMES, ToLower;
    LetterOf(name[0], NAMES[key][0]);
    forall i | 0 <= i < |name|
      ensures 'A' <= name[i] <= 'z'
    {
      LetterOf(name[i], NAMES[key][i]);
    }
  }

  lemma FoundInAnyCase(name: string, key: int)
    requires 0 <= key < KEY_COUNT && EqualNoCase(name, NAMES[key])
    ensures FindKey(name, KeySection(key), 0) == key
  {
    var k := FindKey(name, KeySection(key), 0);
    assert Names(name, KeySection(key), key);
    if k >= 0 {
      assert EqualNoCase(NAMES[key], NAMES[k]) by {
        hide NAMES, ToLower;
      }
      NamesDistinct(key, k);
    }
  }

  // A key of the section being read, in either case and with white space around
  // it, has what follows the '=' as its value.
  lemma TypedKey(before: string, name: string, after: string, value: string, key: int)
    requires 0 <= key < KEY_COUNT && Blank(before) && Blank(after) && EqualNoCase(name, NAMES[key])
    ensures var section := if key < 9 then 0 else 1;
            LineKey(before + (name + after + "=" + value), section) == LineInfo(key, section, false, value)
  {
    hide LineKey, SkipBom, NAMES, FindKey, EqualNoCase, IndexOf, LStrip, RStrip;
    NameIsLetters(name, key);
    FoundInAnyCase(name, key);
    var rest := name + after + "=" + value;
    assert rest[0] == name[0];
    NoBom(before, rest);
    StripBefore(before, rest);
    NoStrip(rest);
    AssignmentReads(before + rest, name, after, value, if key < 9 then 0 else 1);
  }

  lemma AssignmentReads(line: string, name: string, after: string, value: string, section: int)
    requires |name| >= 3 && (forall i | 0 <= i < |name| :: 'A' <= name[i] <= 'z') && name[0] != '[' && Blank(after)
    requires SkipBom(line) == line && LStrip(line) == name + after + "=" + value
    ensures LineKey(line, section) == LineInfo(FindKey(name, section, 0), section, false, value)
  {
    hide SkipBom, FindKey, IndexOf, LStrip, RStrip;
    var rest, n := name + after + "=" + value, |name| + |after|;
    assert rest[0] == name[0] && rest[n] == '=' && rest[..n] == name + after && rest[n + 1..] == value;
    StripAfter(name, after);
    NoStrip(name);
    IndexIsFirst(rest, '=', n) by {
      assert forall i | 0 <= i < n :: rest[i] == if i < |name| then name[i] else after[i - |name|];
    }
  }

  // A header in either case opens its section; any other name closes the one open.
  lemma TypedHeader(before: string, a: string, name: string, b: string, rest: string, section: int)
    requires Blank(before) && Blank(a) && Blank(b) && name != "" && ']' !in name
    requires !IsSpace(name[0]) && !IsSpace(name[|name| - 1])
    ensures var next := if EqualNoCase(name, "Video") then 0 else if EqualNoCase(name, "Audio") then 1 else -1;
            LineKey(before + ("[" + a + name + b + "]" + rest), section) == LineInfo(-1, next, true, "")
  {
    var inner := a + name + b;
    var tail, n := "[" + a + name + b + "]" + rest, |inner|;
    hide IndexOf, LStrip, RStrip, EqualNoCase;
    NoBom(before, tail);
    StripBefore(before, tail);
    NoStrip(tail);
    var p := tail[1..];
    assert p[..n] == inner && p[n] == ']';
    IndexIsFirst(p, ']', n) by {
      assert forall i | 0 <= i < n :: p[i] == inner[i];
      assert ']' !in a && ']' !in b;
    }
    HeaderName(a, name, b);
  }

  lemma HeaderName(a: string, name: string, b: string)
    requires Blank(a) && Blank(b) && name != "" && !IsSpace(name[0]) && !IsSpace(name[|name| - 1])
    ensures LStrip(RStrip(a + name + b)) == name
  {
    hide LStrip, RStrip;
    StripAfter(a + name, b);
    var an := a + name;
    assert RStrip(an) == an by {
      LastStays(an);
    }
    StripBefore(a, name);
    NoStrip(name);
  }

  lemma LastStays(s: string)
    requires s != "" && !IsSpace(s[|s| - 1])
    ensures RStrip(s) == s
  {
  }

  // --------------------------------------------------------- what is loaded

  // A number behind a key of the section being read is its field; for the
  // interpolation key it is the truth of being positive, and above 1 an old
  // rate; anything that is not a number changes nothing.
  lemma ValueLoads(ld: Loading, line: string, key: int, value: string)
    requires 0 <= key < KEY_COUNT && LineKey(line, ld.section) == LineInfo(key, ld.section, false, value)
    ensures var t, n := LoadLine(ld, line), ReadNumber(value);
            && t.section == ld.section
            && (n.None? ==> t == ld)
            && (n.Some? ==>
                  && t.s == ld.s[key := if key != 7 then n.value else if n.value > 0 then 1 else 0]
                  && t.targetSeen == (ld.targetSeen || key == 8)
                  && t.legacyHz == if key == 7 && n.value > 1 then n.value else ld.legacyHz)
  {
    hide LineKey, ReadNumber;
  }

  // An empty file loads the defaults.
  lemma EmptyLoads()
    ensures LoadText("") == [960, 720, 0, 1, 0, 0, 0, 0, 120, 100, 0]
  {
    assert Lines("") == [];
    assert LoadLines(LOAD_START, []) == LOAD_START;
  }

  lemma KeyLoads(ld: Loading, key: int, value: string, n: int)
    requires 0 <= key < KEY_COUNT && KeySection(key) == ld.section && ReadNumber(value) == Some(n)
    ensures var t := LoadLine(ld, NAMES[key] + "=" + value);
            t == Loading(ld.s[key := if key != 7 then n else if n > 0 then 1 else 0], ld.section,
                         ld.targetSeen || key == 8, if key == 7 && n > 1 then n else ld.legacyHz)
  {
    NameShape(key);
    FoundByName(key);
    hide NAMES, LineKey, FindKey, KeySection, ReadNumber;
    AssignmentMeans(NAMES[key], value, ld.section);
    ValueLoads(ld, NAMES[key] + "=" + value, key, value);
  }

  lemma LoadEach(ld: Loading, a: string, b: string, c: string)
    ensures LoadLines(ld, [a, b]) == LoadLine(LoadLine(ld, a), b)
    ensures LoadLines(ld, [a, b, c]) == LoadLine(LoadLine(LoadLine(ld, a), b), c)
  {
    hide LoadLine;
    LoadOne(LoadLine(ld, a), b);
    LoadOne(LoadLine(LoadLine(ld, a), b), c);
    assert [a, b][1..] == [b] && [a, b, c][1..] == [b, c] && [b, c][1..] == [c];
  }

  lemma ReadSeventyFive()
    ensures ReadNumber("75") == Some(75) && IsLine("TargetHz=75")
  {
    assert Decimal(75) == "75";
    DecimalReadsBack(75);
  }

  lemma DigitsAreLine(name: string, n: nat)
    requires IsLine(name)
    ensures IsLine(name + Decimal(n))
  {
  }

  lemma VideoOpens()
    ensures IsLine("[Video]") && LoadLine(LOAD_START, "[Video]") == LOAD_START.(section := 0)
  {
    HeaderLineMeans(0, -1);
    assert HeaderLine(0) == "[Video]";
    hide LineKey;
  }

  lemma RateLine(ld: Loading, n: nat)
    requires ld.section == 0 && 60 <= n <= 240
    ensures var line := "Interpolation=" + Decimal(n);
            IsLine(line) && LoadLine(ld, line) == ld.(s := ld.s[7 := 1], legacyHz := n)
  {
    DigitsAreLine("Interpolation=", n);
    DecimalReadsBack(n);
    assert "Interpolation=" == NAMES[7] + "=";
    hide LoadLine, NAMES, Decimal, ReadNumber;
    KeyLoads(ld, 7, Decimal(n), n);
  }

  lemma TargetLine(ld: Loading)
    requires ld.section == 0
    ensures IsLine("TargetHz=75") && LoadLine(ld, "TargetHz=75") == ld.(s := ld.s[8 := 75], targetSeen := true)
  {
    ReadSeventyFive();
    assert "TargetHz=75" == NAMES[8] + "=" + "75";
    hide LoadLine, NAMES, ReadNumber;
    KeyLoads(ld, 8, "75", 75);
  }

  // An interpolation rate from an old file is the target rate, unless one is given.
  lemma OldRateLoads(n: nat)
    requires 60 <= n <= 240
    ensures LoadText(Join(["[Video]", "Interpolation=" + Decimal(n)])) == [960, 720, 0, 1, 0, 0, 0, 1, n, 100, 0]
  {
    var header, rate := "[Video]", "Interpolation=" + Decimal(n);
    hide LoadLine, Lines, Join, Decimal;
    VideoOpens();
    RateLine(LOAD_START.(section := 0), n);
    LinesOfJoin([header, rate]);
    LoadEach(LOAD_START, header, rate, rate);
  }

  lemma NewRateLoads(n: nat)
    requires 60 <= n <= 240
    ensures LoadText(Join(["[Video]", "TargetHz=75", "Interpolation=" + Decimal(n)])) ==
            [960, 720, 0, 1, 0, 0, 0, 1, 75, 100, 0]
  {
    var header, target, rate := "[Video]", "TargetHz=75", "Interpolation=" + Decimal(n);
    hide LoadLine, Lines, Join, Decimal;
    VideoOpens();
    var a := LOAD_START.(section := 0);
    TargetLine(a);
    RateLine(a.(s := a.s[8 := 75], targetSeen := true), n);
    LinesOfJoin([header, target, rate]);
    LoadEach(LOAD_START, header, target, rate);
  }

  // -------------------------------------------------------- what is written

  lemma MissingOne(s: Settings, section: int, i: nat)
    requires Writable(s) && i < KEY_COUNT
    ensures MissingLines(s, section, {}, i) ==
            (if section == (if i < 9 then 0 else 1) then [KeyLine(s, i)] else []) + MissingLines(s, section, {}, i + 1)
  {
  }

  lemma MissingNone(s: Settings, section: int)
    requires Writable(s)
    ensures MissingLines(s, section, {}, KEY_COUNT) == []
  {
  }

  lemma MissingAll(s: Settings, section: int)
    requires Writable(s)
    ensures MissingLines(s, section, {}, 0) ==
            if section == 0 then [KeyLine(s, 0), KeyLine(s, 1), KeyLine(s, 2), KeyLine(s, 3), KeyLine(s, 4),
                                  KeyLine(s, 5), KeyLine(s, 6), KeyLine(s, 7), KeyLine(s, 8)]
            else if section == 1 then [KeyLine(s, 9), KeyLine(s, 10)] else []
  {
    hide MissingLines, KeyLine;
    MissingOne(s, section, 0);
    MissingOne(s, section, 1);
    MissingOne(s, section, 2);
    MissingOne(s, section, 3);
    MissingOne(s, section, 4);
    MissingOne(s, section, 5);
    MissingOne(s, section, 6);
    MissingOne(s, section, 7);
    MissingOne(s, section, 8);
    MissingOne(s, section, 9);
    MissingOne(s, section, 10);
    MissingNone(s, section);
  }

  lemma RangesNormal(s: Settings)
    requires InRanges(s)
    ensures Normalize(s) == s
  {
  }

  lemma EmptySaves(s: Settings)
    requires Writable(s)
    ensures SavedLines(s, []) ==
            ["", "[Video]"] + MissingLines(s, 0, {}, 0) + ["", "[Audio]"] + MissingLines(s, 1, {}, 0)
  {
    MissingAll(s, -1);
    hide MissingLines;
    assert SectionKeys(-1) == {} && {} + SectionKeys(-1) == {};
    assert SaveLines(s, SAVE_START, []) == [] && SaveStates(SAVE_START, []) == SAVE_START;
    assert HeaderLine(0) == "[Video]" && HeaderLine(1) == "[Audio]";
  }

  lemma KeyLinesAre(s: Settings)
    requires Writable(s)
    ensures KeyLine(s, 0) == "WindowWidth=" + Decimal(s[0]) && KeyLine(s, 1) == "WindowHeight=" + Decimal(s[1])
    ensures KeyLine(s, 2) == "Fullscreen=" + Decimal(s[2]) && KeyLine(s, 3) == "InternalScale=" + Decimal(s[3])
    ensures KeyLine(s, 4) == "TextureFilter=" + Decimal(s[4]) && KeyLine(s, 5) == "Antialiasing=" + Decimal(s[5])
    ensures KeyLine(s, 6) == "ModelSmoothing=" + Decimal(s[6])
    ensures KeyLine(s, 7) == "Interpolation=" + Decimal(if s[7] == 0 then 0 else s[8])
    ensures KeyLine(s, 8) == "TargetHz=" + Decimal(s[8])
    ensures KeyLine(s, 9) == "Volume=" + Decimal(s[9]) && KeyLine(s, 10) == "Muted=" + Decimal(s[10])
  {
    assert forall k | 0 <= k < 11 && k != 7 :: WrittenValue(s, k) == s[k];
    hide Decimal, WrittenValue;
    assert NAMES[0] + "=" == "WindowWidth=" && NAMES[1] + "=" == "WindowHeight=" && NAMES[2] + "=" == "Fullscreen=";
    assert NAMES[3] + "=" == "InternalScale=" && NAMES[4] + "=" == "TextureFilter=";
    assert NAMES[5] + "=" == "Antialiasing=" && NAMES[6] + "=" == "ModelSmoothing=";
    assert NAMES[7] + "=" == "Interpolation=" && NAMES[8] + "=" == "TargetHz=";
    assert NAMES[9] + "=" == "Volume=" && NAMES[10] + "=" == "Muted=";
  }

  // An empty file becomes the two sections with all keys in order; the
  // interpolation key holds the target rate or 0.
  lemma FreshFile(s: Settings)
    requires InRanges(s)
    ensures SaveText("", s) == Join([
              "", "[Video]", "WindowWidth=" + Decimal(s[0]), "WindowHeight=" + Decimal(s[1]),
              "Fullscreen=" + Decimal(s[2]), "InternalScale=" + Decimal(s[3]), "TextureFilter=" + Decimal(s[4]),
              "Antialiasing=" + Decimal(s[5]), "ModelSmoothing=" + Decimal(s[6]),
              "Interpolation=" + Decimal(if s[7] == 0 then 0 else s[8]), "TargetHz=" + Decimal(s[8]),
              "", "[Audio]", "Volume=" + Decimal(s[9]), "Muted=" + Decimal(s[10])])
  {
    hide Decimal, Join, SavedLines, MissingLines, KeyLine, Normalize;
    RangesNormal(s);
    NormalizedIsWritable(s);
    assert Lines("") == [];
    EmptySaves(s);
    MissingAll(s, 0);
    MissingAll(s, 1);
    KeyLinesAre(s);
    assert SavedLines(s, []) == [
        "", "[Video]", KeyLine(s, 0), KeyLine(s, 1), KeyLine(s, 2), KeyLine(s, 3), KeyLine(s, 4), KeyLine(s, 5),
        KeyLine(s, 6), KeyLine(s, 7), KeyLine(s, 8), "", "[Audio]", KeyLine(s, 9), KeyLine(s, 10)];
  }
}
