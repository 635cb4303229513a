// The text side of the settings file: lines, white space, names and numbers.
// A char stands for one byte of the file.
module SettingsText {
  import opened Options

  const INT_MIN: int := -0x8000_0000
  const INT_MAX: int := 0x7FFF_FFFF

  // --------------------------------------------------------------- bytes

  predicate IsSpace(c: char) {
    c == ' ' || '\t' <= c <= '\r'
  }

  function ToLower(c: char): char {
    if 'A' <= c <= 'Z' then ((c as int) + 32) as char else c
  }

  predicate IsDigit(c: char) { '0' <= c <= '9' }

  predicate StartsComment(c: char) { c == ';' || c == '#' }

  predicate EqualNoCase(a: string, b: string) {
    |a| == |b| && forall i | 0 <= i < |a| :: ToLower(a[i]) == ToLower(b[i])
  }

  // --------------------------------------------------------------- lines

  // The first position of c, or the length.
  function IndexOf(s: string, c: char): (k: nat)
    ensures k <= |s| && c !in s[..k] && (k < |s| ==> s[k] == c)
  {
    if s == "" || s[0] == c then 0 else 1 + IndexOf(s[1..], c)
  }

  lemma IndexIsFirst(s: string, c: char, k: nat)
    requires k <= |s| && c !in s[..k] && (k < |s| ==> s[k] == c)
    ensures IndexOf(s, c) == k
  {
    var m := IndexOf(s, c);
    assert forall i | 0 <= i < k :: s[i] == s[..k][i] != c;
    assert forall i | 0 <= i < m :: s[i] == s[..m][i] != c;
  }

  function Lines(text: string): seq<string> {
    if text == "" then [] else
    var k := IndexOf(text, '\n');
    if k == |text| then [text] else [text[..k]] + Lines(text[k + 1..])
  }

  predicate IsLine(s: string) { '\n' !in s }

  predicate AreLines(ls: seq<string>) { forall i | 0 <= i < |ls| :: IsLine(ls[i]) }

  function Join(ls: seq<string>): string {
    if ls == [] then "" else ls[0] + "\n" + Join(ls[1..])
  }

  lemma {:induction false} LinesAreLines(text: string)
    ensures AreLines(Lines(text))
  {
    if text != "" {
      var k := IndexOf(text, '\n');
      if k < |text| {
        LinesAreLines(text[k + 1..]);
      }
    }
  }

  lemma {:induction false} LinesOfJoin(ls: seq<string>)
    requires AreLines(ls)
    ensures Lines(Join(ls)) == ls
  {
    if ls != [] {
      var text, n := Join(ls), |ls[0]|;
      assert text == ls[0] + "\n" + Join(ls[1..]);
      assert text[..n] == ls[0] && text[n] == '\n' && text[n + 1..] == Join(ls[1..]);
      IndexIsFirst(text, '\n', n);
      LinesOfJoin(ls[1..]);
    }
  }

  lemma {:induction false} JoinAppends(a: seq<string>, b: seq<string>)
    ensures Join(a + b) == Join(a) + Join(b)
  {
    if a == [] {
      assert a + b == b;
    } else {
      assert (a + b)[1..] == a[1..] + b;
      JoinAppends(a[1..], b);
    }
  }

  // --------------------------------------------------------- white space

  function LStrip(s: string): string {
    if s != "" && IsSpace(s[0]) then LStrip(s[1..]) else s
  }

  function RStrip(s: string): string {
    if s != "" && IsSpace(s[|s| - 1]) then RStrip(s[..|s| - 1]) else s
  }

  // ------------------------------------------------------------- numbers

  function DigitCount(s: string): (n: nat)
    ensures n <= |s| && forall i | 0 <= i < n :: IsDigit(s[i])
  {
    if s != "" && IsDigit(s[0]) then 1 + DigitCount(s[1..]) else 0
  }

  function Digit(c: char): (d: nat)
    requires IsDigit(c)
    ensures d < 10
  {
    c as int - '0' as int
  }

  function DigitsValue(ds: string): nat
    requires forall i | 0 <= i < |ds| :: IsDigit(ds[i])
  {
    if ds == "" then 0
    else 10 * DigitsValue(ds[..|ds| - 1]) + Digit(ds[|ds| - 1])
  }

  predicate EndsValue(tail: string) { tail == "" || StartsComment(tail[0]) }

  // `strtol` in base 10, then what may follow the number. A value outside the
  // int range is refused, whether or not it also overflows a long. Where there is
  // no number `strtol` stands at the start of the value, and the white space
  // passed over after it makes it seem to have read something: a zero.
  function ReadNumber(value: string): Option<int> {
    var t := LStrip(value);
    var negative := t != "" && t[0] == '-';
    var digits := if t != "" && (t[0] == '-' || t[0] == '+') then t[1..] else t;
    var n := DigitCount(digits);
    if n == 0 then
      if |t| < |value| && EndsValue(t) then Some(0) else None
    else
    var magnitude: int := DigitsValue(digits[..n]);
    var number: int := if negative then -magnitude else magnitude;
    var tail := LStrip(digits[n..]);
    if EndsValue(tail) && INT_MIN <= number <= INT_MAX then Some(number) else None
  }

  lemma {:induction false} StripBlank(blank: string, rest: string)
    requires (forall i | 0 <= i < |blank| :: IsSpace(blank[i])) && (rest == "" || !IsSpace(rest[0]))
    ensures LStrip(blank + rest) == rest
  {
    if blank == "" {
      assert blank + rest == rest;
    } else {
      assert (blank + rest)[1..] == blank[1..] + rest;
      StripBlank(blank[1..], rest);
    }
  }

  // A value of white space, before a comment or not, is read as 0; only a value
  // that is really empty is not read.
  lemma BlankReadsZero(blank: string, comment: string)
    requires (forall i | 0 <= i < |blank| :: IsSpace(blank[i])) && EndsValue(comment)
    ensures ReadNumber(blank + comment) == if blank == "" then None else Some(0)
  {
    StripBlank(blank, comment);
  }

  function Decimal(n: nat): (s: string)
    ensures |s| > 0 && forall i | 0 <= i < |s| :: IsDigit(s[i])
  {
    var d := [((n % 10) + '0' as int) as char];
    if n < 10 then d else Decimal(n / 10) + d
  }

  lemma {:induction false} DecimalValue(n: nat)
    ensures DigitsValue(Decimal(n)) == n
  {
    if n >= 10 {
      DecimalValue(n / 10);
      var s := Decimal(n);
      assert s[..|s| - 1] == Decimal(n / 10);
    }
  }

  lemma {:induction false} AllDigitsCount(s: string)
    requires forall i | 0 <= i < |s| :: IsDigit(s[i])
    ensures DigitCount(s) == |s|
  {
    if s != "" {
      AllDigitsCount(s[1..]);
    }
  }

  lemma DecimalReadsBack(n: nat)
    requires n <= INT_MAX
    ensures ReadNumber(Decimal(n)) == Some(n)
  {
    hide Decimal, DigitCount, DigitsValue;
    var s := Decimal(n);
    assert IsDigit(s[0]);
    AllDigitsCount(s);
    assert LStrip(s) == s && EndsValue("") && s[..|s|] == s && s[|s|..] == "";
    DecimalValue(n);
  }

  // ------------------------------------------------ a number in its place

  lemma {:induction false} DigitsEnd(digits: string, tail: string)
    requires (forall i | 0 <= i < |digits| :: IsDigit(digits[i])) && (tail == "" || !IsDigit(tail[0]))
    ensures DigitCount(digits + tail) == |digits|
  {
    if digits == "" {
      assert digits + tail == tail;
    } else {
      assert (digits + tail)[1..] == digits[1..] + tail;
      DigitsEnd(digits[1..], tail);
    }
  }

  // A number with white space before and after it, a sign, and a comment behind.
  lemma NumberReads(before: string, sign: string, n: nat, after: string, comment: string)
    requires (forall i | 0 <= i < |before| :: IsSpace(before[i])) && (forall i | 0 <= i < |after| :: IsSpace(after[i]))
    requires (sign == "" || sign == "-" || sign == "+") && (comment == "" || comment[0] == ';' || comment[0] == '#')
    ensures var v: int := if sign == "-" then -1 * n else n;
            ReadNumber(before + (sign + Decimal(n) + after + comment)) ==
            if -0x8000_0000 <= v <= 0x7FFF_FFFF then Some(v) else None
  {
    hide Decimal, DigitCount, DigitsValue, LStrip, ReadNumber;
    var digits, tail := Decimal(n), after + comment;
    var t := sign + digits + after + comment;
    assert t == sign + (digits + tail);
    assert !IsSpace(t[0]) by {
      assert t[0] == if sign == "" then digits[0] else sign[0];
    }
    StripBlank(before, t);
    DecimalValue(n);
    DigitsEnd(digits, tail);
    StripBlank(after, comment);
    assert (digits + tail)[..|digits|] == digits && (digits + tail)[|digits|..] == tail;
    SignedNumberReads(before + t, t, sign, digits, tail, comment, n);
  }

  lemma SignedNumberReads(value: string, t: string, sign: string, digits: string, tail: string, comment: string, n: nat)
    requires LStrip(value) == t == sign + (digits + tail) && (sign == "" || sign == "-" || sign == "+")
    requires digits != "" && (forall i | 0 <= i < |digits| :: IsDigit(digits[i])) && DigitsValue(digits) == n
    requires DigitCount(digits + tail) == |digits| && LStrip(tail) == comment && EndsValue(comment)
    ensures var v: int := if sign == "-" then -1 * n else n;
            ReadNumber(value) == if -0x8000_0000 <= v <= 0x7FFF_FFFF then Some(v) else None
  {
    hide DigitCount, DigitsValue, LStrip;
    assert (digits + tail)[..|digits|] == digits && (digits + tail)[|digits|..] == tail;
    if sign == "" {
      assert t == digits + tail && t[0] == digits[0];
    } else {
      assert t[0] == sign[0] && t[1..] == digits + tail;
    }
  }
}
