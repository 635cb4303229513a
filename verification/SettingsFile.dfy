// The settings file as its loader and its in-place rewriter see it.
module SettingsFile {
  import opened SettingsText

  // ------------------------------------------------------------ settings

  const KEY_COUNT := 11
  const INTERPOLATION_KEY := 7
  const TARGET_KEY := 8
  const VIDEO := 0
  const AUDIO := 1

  // Field k is the one that keys[k] names.
  type Settings = s: seq<int> | |s| == KEY_COUNT witness [0, 0, 0, 0, 0, 0, 0, 0, 0, 0, 0]

  const NAMES: seq<string> := [
    "WindowWidth", "WindowHeight", "Fullscreen", "InternalScale", "TextureFilter", "Antialiasing",
    "ModelSmoothing", "Interpolation", "TargetHz", "Volume", "Muted"]

  const SECTION_NAMES: seq<string> := ["Video", "Audio"]

  function KeySection(key: int): int { if key < 9 then VIDEO else AUDIO }

  const DEFAULTS: Settings := [960, 720, 0, 1, 0, 0, 0, 0, 120, 100, 0]

  function Clamp(n: int, low: int, high: int): int {
    if n < low then low else if n > high then high else n
  }

  function Truth(n: int): int { if n != 0 then 1 else 0 }

  function Normalize(s: Settings): Settings {
    [Clamp(s[0], 640, 7680), Clamp(s[1], 480, 4320), Truth(s[2]), Clamp(s[3], 1, 4), Clamp(s[4], 0, 1),
     Clamp(s[5], 0, 1), Clamp(s[6], 0, 1), Truth(s[7]), Clamp(s[8], 60, 240), Clamp(s[9], 0, 100), Truth(s[10])]
  }

  // ---------------------------------------------------- one line's meaning

  // `key` is -1 when the line sets nothing; `section` is the section after it.
  datatype LineInfo = LineInfo(key: int, section: int, header: bool, value: string)

  const BOM: string := "\U{ef}\U{bb}\U{bf}"

  function SkipBom(line: string): string {
    if |line| >= 3 && line[..3] == BOM then line[3..] else line
  }

  function SectionOf(name: string): int {
    if EqualNoCase(name, SECTION_NAMES[VIDEO]) then VIDEO
    else if EqualNoCase(name, SECTION_NAMES[AUDIO]) then AUDIO
    else -1
  }

  predicate Names(name: string, section: int, key: int)
    requires 0 <= key < KEY_COUNT
  {
    KeySection(key) == section && EqualNoCase(name, NAMES[key])
  }

  // The first key from i on that the name means in this section.
  function FindKey(name: string, section: int, i: nat): (key: int)
    requires i <= KEY_COUNT
    ensures -1 <= key < KEY_COUNT
    ensures key >= 0 ==> i <= key && Names(name, section, key)
    ensures forall k | i <= k < KEY_COUNT && (key < 0 || k < key) :: !Names(name, section, k)
    decreases KEY_COUNT - i
  {
    if i == KEY_COUNT then -1
    else if Names(name, section, i) then i
    else FindKey(name, section, i + 1)
  }

  function LineKey(line: string, section: int): (info: LineInfo)
    ensures -1 <= info.key < KEY_COUNT
    ensures info.key >= 0 ==> !info.header && info.section == section == KeySection(info.key)
    ensures !info.header ==> info.section == section
    ensures info.header ==> -1 <= info.section <= 1
  {
    var p := LStrip(SkipBom(line));
    if p == "" || StartsComment(p[0]) then LineInfo(-1, section, false, "")
    else if p[0] == '[' then
      var q := IndexOf(p[1..], ']');
      if q == |p| - 1 then LineInfo(-1, section, false, "")
      else LineInfo(-1, SectionOf(LStrip(RStrip(p[1..][..q]))), true, "")
    else
      var q := IndexOf(p, '=');
      if q == |p| then LineInfo(-1, section, false, "")
      else LineInfo(FindKey(RStrip(p[..q]), section, 0), section, false, p[q + 1..])
  }

  // ------------------------------------------------------------- loading

  datatype Loading = Loading(s: Settings, section: int, targetSeen: bool, legacyHz: int)

  const LOAD_START: Loading := Loading(DEFAULTS, -1, false, 0)

  function SetKey(st: Loading, key: int, number: int): Loading
    requires 0 <= key < KEY_COUNT
  {
    var t := st.(s := st.s[key := number]);
    if key == INTERPOLATION_KEY then
      t.(s := t.s[INTERPOLATION_KEY := if number > 0 then 1 else 0],
         legacyHz := if number > 1 then number else t.legacyHz)
    else if key == TARGET_KEY then t.(targetSeen := true)
    else t
  }

  function LoadLine(st: Loading, line: string): Loading {
    var info := LineKey(line, st.section);
    var t := st.(section := info.section);
    if info.key < 0 then t else
    match ReadNumber(info.value)
    case None => t
    case Some(number) => SetKey(t, info.key, number)
  }

  function LoadLines(st: Loading, lines: seq<string>): Loading
    decreases |lines|
  {
    if lines == [] then st else LoadLines(LoadLine(st, lines[0]), lines[1..])
  }

  function LoadEnd(st: Loading): Settings {
    Normalize(if !st.targetSeen && st.legacyHz != 0 then st.s[TARGET_KEY := st.legacyHz] else st.s)
  }

  function LoadText(text: string): Settings {
    LoadEnd(LoadLines(LOAD_START, Lines(text)))
  }

  // -------------------------------------------------------------- saving

  datatype Saving = Saving(section: int, seen: set<int>, sectionSeen: set<int>)

  const SAVE_START: Saving := Saving(-1, {}, {})

  function WrittenValue(s: Settings, key: int): int
    requires 0 <= key < KEY_COUNT
  {
    if key == INTERPOLATION_KEY then (if s[INTERPOLATION_KEY] != 0 then s[TARGET_KEY] else 0) else s[key]
  }

  lemma WrittenValueIsNat(s: Settings, key: int)
    requires 0 <= key < KEY_COUNT
    ensures 0 <= WrittenValue(Normalize(s), key) <= 7680
  {
  }

  // `s` is always a normalized settings value, so the number has no sign.
  function KeyLine(s: Settings, key: int): string
    requires 0 <= key < KEY_COUNT && WrittenValue(s, key) >= 0
  {
    NAMES[key] + "=" + Decimal(WrittenValue(s, key))
  }

  predicate Writable(s: Settings) {
    forall key | 0 <= key < KEY_COUNT :: 0 <= WrittenValue(s, key) <= INT_MAX
  }

  // The lines `finish_section` adds, from key i on.
  function MissingLines(s: Settings, section: int, seen: set<int>, i: nat): seq<string>
    requires i <= KEY_COUNT && Writable(s)
    decreases KEY_COUNT - i
  {
    if i == KEY_COUNT then []
    else if KeySection(i) == section && i !in seen
    then [KeyLine(s, i)] + MissingLines(s, section, seen, i + 1)
    else MissingLines(s, section, seen, i + 1)
  }

  function SectionKeys(section: int): set<int> {
    set k | 0 <= k < KEY_COUNT && KeySection(k) == section
  }

  function SaveState(st: Saving, line: string): Saving {
    var info := LineKey(line, st.section);
    var seen := if info.header then st.seen + SectionKeys(st.section) else st.seen;
    Saving(info.section,
           if info.key >= 0 then seen + {info.key} else seen,
           if info.header && info.section >= 0 then st.sectionSeen + {info.section} else st.sectionSeen)
  }

  function SaveLine(s: Settings, st: Saving, line: string): seq<string>
    requires Writable(s)
  {
    var info := LineKey(line, st.section);
    if info.key < 0 then
      (if info.header then MissingLines(s, st.section, st.seen, 0) else []) + [line]
    else if info.key !in st.seen then [KeyLine(s, info.key)]
    else []
  }

  function SaveStates(st: Saving, lines: seq<string>): Saving
    decreases |lines|
  {
    if lines == [] then st else SaveStates(SaveState(st, lines[0]), lines[1..])
  }

  function SaveLines(s: Settings, st: Saving, lines: seq<string>): seq<string>
    requires Writable(s)
    decreases |lines|
  {
    if lines == [] then [] else SaveLine(s, st, lines[0]) + SaveLines(s, SaveState(st, lines[0]), lines[1..])
  }

  function HeaderLine(section: int): string
    requires 0 <= section <= 1
  {
    "[" + SECTION_NAMES[section] + "]"
  }

  // A section the file never had is appended, after a blank line.
  function AppendedSection(s: Settings, st: Saving, section: int): seq<string>
    requires 0 <= section <= 1 && Writable(s)
  {
    if section in st.sectionSeen then []
    else ["", HeaderLine(section)] + MissingLines(s, section, st.seen, 0)
  }

  function SaveEnd(s: Settings, st: Saving): seq<string>
    requires Writable(s)
  {
    var t := st.(seen := st.seen + SectionKeys(st.section));
    MissingLines(s, st.section, st.seen, 0) + AppendedSection(s, t, VIDEO) + AppendedSection(s, t, AUDIO)
  }

  function SavedLines(s: Settings, lines: seq<string>): seq<string>
    requires Writable(s)
  {
    SaveLines(s, SAVE_START, lines) + SaveEnd(s, SaveStates(SAVE_START, lines))
  }

  lemma NormalizedIsWritable(s: Settings)
    ensures Writable(Normalize(s))
  {
    forall key | 0 <= key < KEY_COUNT
      ensures 0 <= WrittenValue(Normalize(s), key) <= INT_MAX
    {
      WrittenValueIsNat(s, key);
    }
  }

  // What the file holds after `saturn_settings_save` over the text it had.
  function SaveText(text: string, settings: Settings): string {
    NormalizedIsWritable(settings);
    Join(SavedLines(Normalize(settings), Lines(text)))
  }
}
