/** Printing a version and reading it back. */
module Version {
  import opened Wrappers
  import opened Text

  datatype Version = Version(major: nat, minor: nat, patch: nat, prerelease: Option<string>)

  function Display(v: Version): string {
    var core := Decimal(v.major) + "." + Decimal(v.minor) + "." + Decimal(v.patch);
    if v.prerelease.Some? then core + "-" + v.prerelease.value else core
  }

  // ---------------------------------------------------------------- the grammar

  predicate IsIdentifierChar(c: char) {
    IsDigit(c) || 'a' <= c <= 'z' || 'A' <= c <= 'Z' || c == '-'
  }

  predicate IsIdentifier(s: string) {
    s != "" && forall c | c in s :: IsIdentifierChar(c)
  }

  /** The class the expression calls a digit: among ASCII characters `0` to `9`, and whichever others. */
  ghost predicate DigitClass(digit: char -> bool) {
    forall c | c < 128 as char :: digit(c) <==> IsDigit(c)
  }

  /** A zero, or digits of which the first is `1` to `9`. */
  predicate IsNumeric(s: string, digit: char -> bool) {
    s == "0" || (s != "" && '1' <= s[0] <= '9' && forall c | c in s[1..] :: digit(c))
  }

  /** Digits, then a letter or hyphen in place `k`, then identifier characters. */
  predicate LetterAt(s: string, k: nat, digit: char -> bool)
    requires k < |s|
  {
    && (forall c | c in s[..k] :: digit(c))
    && IsIdentifierChar(s[k]) && !IsDigit(s[k])
    && (forall c | c in s[k + 1..] :: IsIdentifierChar(c))
  }

  predicate IsPrereleaseIdentifier(s: string, digit: char -> bool) {
    IsNumeric(s, digit) || exists k :: 0 <= k < |s| && LetterAt(s, k, digit)
  }

  predicate IsPrerelease(s: string, digit: char -> bool) {
    forall part | part in Split(s, '.') :: IsPrereleaseIdentifier(part, digit)
  }

  predicate IsBuild(s: string) {
    forall part | part in Split(s, '.') :: IsIdentifier(part)
  }

  // ---------------------------------------------------------------- the parser

  function TrimStart(s: string, c: char): string {
    if s != "" && s[0] == c then TrimStart(s[1..], c) else s
  }

  /** `trim_end_matches`. */
  function TrimEnd(s: string, suffix: string): string
    requires suffix != ""
    decreases |s|
  {
    if |s| >= |suffix| && s[|s| - |suffix|..] == suffix then TrimEnd(s[..|s| - |suffix|], suffix) else s
  }

  /** The text before and, if there is one, the text after the first `c`. */
  function CutAt(s: string, c: char): (string, Option<string>) {
    if s == "" then ("", None)
    else if s[0] == c then ("", Some(s[1..]))
    else
      var (before, after) := CutAt(s[1..], c);
      ([s[0]] + before, after)
  }

  /** The capture groups of the version expression: the numbers and the prerelease. */
  function Recognize(s: string, digit: char -> bool): Option<(seq<string>, Option<string>)> {
    var (left, build) := CutAt(s, '+');
    var (core, prerelease) := CutAt(left, '-');
    var numbers := Split(core, '.');
    if (|numbers| == 2 || |numbers| == 3) && (forall n | n in numbers :: IsNumeric(n, digit))
       && (prerelease.Some? ==> IsPrerelease(prerelease.value, digit)) && (build.Some? ==> IsBuild(build.value))
    then Some((numbers, prerelease))
    else None
  }

  /** What is left of a text when leading `v`s and the Coldcard's suffixes are gone. */
  function Trimmed(s: string): string {
    TrimEnd(TrimEnd(TrimStart(s, 'v'), "QX"), "X")
  }

  function ParseTrimmed(t: string, digit: char -> bool): Option<Version> {
    match Recognize(t, digit)
    case None => None
    case Some((numbers, prerelease)) =>
      if |numbers| < 2 then None
      else
        var patch := if |numbers| > 2 then ParseU32(numbers[2]) else Some(0);
        match (ParseU32(numbers[0]), ParseU32(numbers[1]), patch)
        case (Some(major), Some(minor), Some(patch)) => Some(Version(major, minor, patch, prerelease))
        case _ => None
  }

  function ParseVersion(s: string, digit: char -> bool): Option<Version> {
    ParseTrimmed(Trimmed(s), digit)
  }

  // ---------------------------------------------------------------- round trip

  lemma {:induction false} CutAbsent(s: string, c: char)
    requires c !in s
    ensures CutAt(s, c) == (s, None)
  {
    if s != "" {
      CutAbsent(s[1..], c);
      assert [s[0]] + s[1..] == s;
    }
  }

  lemma {:induction false} CutPresent(s: string, c: char, t: string)
    requires c !in s
    ensures CutAt(s + [c] + t, c) == (s, Some(t))
  {
    var w := s + [c] + t;
    if s == "" {
      assert w[1..] == t;
    } else {
      assert w[1..] == s[1..] + [c] + t;
      CutPresent(s[1..], c, t);
      assert [s[0]] + s[1..] == s;
    }
  }

  function Core(v: Version): string {
    Decimal(v.major) + "." + Decimal(v.minor) + "." + Decimal(v.patch)
  }

  predicate InRange(v: Version) {
    v.major < U32_LIMIT && v.minor < U32_LIMIT && v.patch < U32_LIMIT
  }

  lemma CoreShape(v: Version)
    ensures Split(Core(v), '.') == [Decimal(v.major), Decimal(v.minor), Decimal(v.patch)]
    ensures forall c | c in Core(v) :: IsDigit(c) || c == '.'
    ensures Core(v) != "" && IsDigit(Core(v)[0]) && IsDigit(Core(v)[|Core(v)| - 1])
  {
    var a, b, c := Decimal(v.major), Decimal(v.minor), Decimal(v.patch);
    DecimalValue(v.major);
    DecimalValue(v.minor);
    DecimalValue(v.patch);
    assert Core(v) == a + ['.'] + (b + ['.'] + c);
    SplitFirst(a, '.', b + ['.'] + c);
    SplitFirst(b, '.', c);
    SplitWhole(c, '.');
    assert a[0] in a && c[|c| - 1] in c;
  }

  lemma {:induction false} PrereleaseChars(s: string, digit: char -> bool)
    requires DigitClass(digit) && IsPrerelease(s, digit)
    ensures '+' !in s && s != ""
  {
    assert Split("", '.') == [""] && "" in Split("", '.');
    JoinSplit(s, '.');
    forall part | part in Split(s, '.') ensures '+' !in part {
      IdentifierHasNoPlus(part, digit);
    }
    JoinMembers(Split(s, '.'), '.', '+');
  }

  lemma IdentifierHasNoPlus(s: string, digit: char -> bool)
    requires DigitClass(digit) && IsPrereleaseIdentifier(s, digit)
    ensures '+' !in s && s != ""
  {
    assert !digit('+');
    if IsNumeric(s, digit) {
      assert s == [s[0]] + s[1..];
    } else {
      var k :| 0 <= k < |s| && LetterAt(s, k, digit);
      LetterAtHasNoPlus(s, k, digit);
    }
  }

  lemma LetterAtHasNoPlus(s: string, k: nat, digit: char -> bool)
    requires DigitClass(digit) && k < |s| && LetterAt(s, k, digit)
    ensures '+' !in s
  {
    assert !digit('+') && !IsIdentifierChar('+');
    forall j | 0 <= j < |s| ensures s[j] != '+' {
      if j < k {
        assert s[j] in s[..k];
      } else if j > k {
        assert s[j] == s[k + 1..][j - k - 1];
      }
    }
  }

  lemma DecimalIsNumeric(n: nat, digit: char -> bool)
    requires DigitClass(digit)
    ensures IsNumeric(Decimal(n), digit)
  {
    var d := Decimal(n);
    DecimalValue(n);
    assert d[0] in d;
    forall c | c in d[1..] ensures digit(c) {
      assert c in d && IsDigit(c);
    }
  }

  lemma RecognizeDisplayed(v: Version, digit: char -> bool)
    requires DigitClass(digit)
    requires v.prerelease.Some? ==> IsPrerelease(v.prerelease.value, digit)
    ensures Recognize(Display(v), digit) == Some(([Decimal(v.major), Decimal(v.minor), Decimal(v.patch)], v.prerelease))
  {
    CoreShape(v);
    DecimalIsNumeric(v.major, digit);
    DecimalIsNumeric(v.minor, digit);
    DecimalIsNumeric(v.patch, digit);
    if v.prerelease.Some? {
      PrereleaseChars(v.prerelease.value, digit);
      assert Display(v) == Core(v) + ['-'] + v.prerelease.value;
      CutAbsent(Display(v), '+');
      CutPresent(Core(v), '-', v.prerelease.value);
    } else {
      CutAbsent(Core(v), '+');
      CutAbsent(Core(v), '-');
    }
  }

  lemma {:induction false} TrimEndShrinks(s: string, suffix: string)
    requires suffix != ""
    ensures TrimEnd(s, suffix) <= s
    ensures s != "" && s[|s| - 1] == 'X' && suffix == "X" ==> TrimEnd(s, suffix) < s
    decreases |s|
  {
    if |s| >= |suffix| && s[|s| - |suffix|..] == suffix {
      TrimEndShrinks(s[..|s| - |suffix|], suffix);
    } else if s != "" && suffix == "X" {
      assert s[|s| - 1..] == [s[|s| - 1]];
    }
  }

  /** The last character printed. */
  predicate EndsInX(s: string) {
    s != "" && s[|s| - 1] == 'X'
  }

  lemma ParseKeepsDisplayed(v: Version, digit: char -> bool)
    requires DigitClass(digit) && InRange(v)
    requires v.prerelease.Some? ==> IsPrerelease(v.prerelease.value, digit) && !EndsInX(v.prerelease.value)
    ensures ParseVersion(Display(v), digit) == Some(v)
  {
    CoreShape(v);
    if v.prerelease.Some? { PrereleaseChars(v.prerelease.value, digit); }
    var s := Display(v);
    assert s[0] == Core(v)[0];
    assert s[|s| - 1] != 'X';
    NoPairAtEnd(s);
    RecognizeDisplayed(v, digit);
    ParseDecimal(v.major);
    ParseDecimal(v.minor);
    ParseDecimal(v.patch);
  }

  /** Whatever is recognized has a well-formed prerelease, shorter than the text. */
  lemma RecognizedPrerelease(s: string, digit: char -> bool)
    ensures var r := Recognize(s, digit);
            r.Some? && r.value.1.Some? ==> IsPrerelease(r.value.1.value, digit) && |CutAt(s, '-').0| + 1 + |r.value.1.value| <= |s|
  {
    CutSizes(s, '+');
    CutSizes(CutAt(s, '+').0, '-');
    CutPrefix(s, '+', '-');
  }

  lemma {:induction false} CutSizes(s: string, c: char)
    ensures var (a, b) := CutAt(s, c); if b.Some? then |a| + 1 + |b.value| == |s| else a == s
  {
    if s != "" { CutSizes(s[1..], c); }
  }

  lemma {:induction false} CutPrefix(s: string, c: char, d: char)
    ensures CutAt(CutAt(s, c).0, d).1.Some? ==> CutAt(CutAt(s, c).0, d).0 == CutAt(s, d).0
  {
    if s != "" && s[0] != c {
      var a := CutAt(s, c).0;
      assert a[1..] == CutAt(s[1..], c).0;
      CutPrefix(s[1..], c, d);
    }
  }

  lemma {:induction false} TrimKeepsCut(s: string, t: string, c: char)
    requires t <= s && CutAt(t, c).1.Some?
    ensures CutAt(s, c).0 == CutAt(t, c).0
  {
    if t[0] != c {
      TrimKeepsCut(s[1..], t[1..], c);
    }
  }

  lemma RoundTripNeeds(v: Version, digit: char -> bool)
    requires InRange(v) && v.prerelease.Some? && ParseVersion(Display(v), digit) == Some(v)
    ensures IsPrerelease(v.prerelease.value, digit) && !EndsInX(v.prerelease.value)
  {
    var s, p := Display(v), v.prerelease.value;
    CoreShape(v);
    assert s == Core(v) + ['-'] + p && s[0] == Core(v)[0];
    assert p != "" ==> s[|s| - 1] == p[|p| - 1];
    var t := TrimEnd(s, "QX");
    var u := TrimEnd(t, "X");
    TrimEndShrinks(s, "QX");
    TrimEndShrinks(t, "X");
    RecognizedPrerelease(u, digit);
    CutPresent(Core(v), '-', p);
    CutSurvives(u, digit);
    TrimKeepsCut(s, u, '-');
  }

  /** A displayed version reads back as itself exactly when it has no prerelease, or one that is well
      formed and does not end in `X`. */
  lemma VersionRoundTrip(v: Version, digit: char -> bool)
    requires DigitClass(digit) && InRange(v)
    ensures ParseVersion(Display(v), digit) == Some(v) <==>
            (v.prerelease.Some? ==> IsPrerelease(v.prerelease.value, digit) && !EndsInX(v.prerelease.value))
  {
    if v.prerelease.None? || (IsPrerelease(v.prerelease.value, digit) && !EndsInX(v.prerelease.value)) {
      ParseKeepsDisplayed(v, digit);
    }
    if v.prerelease.Some? && ParseVersion(Display(v), digit) == Some(v) {
      RoundTripNeeds(v, digit);
    }
  }

  lemma CutSurvives(u: string, digit: char -> bool)
    requires Recognize(u, digit).Some? && Recognize(u, digit).value.1.Some?
    ensures CutAt(u, '-').1.Some?
  {
    CutSurvivesFor(u, '+', '-');
  }

  lemma {:induction false} CutSurvivesFor(s: string, c: char, d: char)
    ensures CutAt(CutAt(s, c).0, d).1.Some? ==> CutAt(s, d).1.Some?
  {
    if s != "" && s[0] != c {
      assert CutAt(s, c).0[1..] == CutAt(s[1..], c).0;
      CutSurvivesFor(s[1..], c, d);
    }
  }

  // ---------------------------------------------------------------- every accepted text

  function CoreText(v: Version, two: bool): string {
    Decimal(v.major) + "." + Decimal(v.minor) + if two then "" else "." + Decimal(v.patch)
  }

  /** A version with two or three numbers and possibly build metadata. */
  function VersionText(v: Version, two: bool, build: Option<string>): string {
    CoreText(v, two)
    + (if v.prerelease.Some? then "-" + v.prerelease.value else "")
    + (if build.Some? then "+" + build.value else "")
  }

  predicate Acceptable(v: Version, two: bool, build: Option<string>, digit: char -> bool) {
    && InRange(v) && (two ==> v.patch == 0)
    && (v.prerelease.Some? ==> IsPrerelease(v.prerelease.value, digit))
    && (build.Some? ==> IsBuild(build.value))
  }

  function Numbers(v: Version, two: bool): seq<string> {
    [Decimal(v.major), Decimal(v.minor)] + if two then [] else [Decimal(v.patch)]
  }

  lemma {:induction false} CutJoins(s: string, c: char)
    ensures var (a, b) := CutAt(s, c); c !in a && s == if b.Some? then a + [c] + b.value else a
  {
    if s != "" && s[0] != c {
      CutJoins(s[1..], c);
      assert s == [s[0]] + s[1..];
    }
  }

  lemma CoreTextShape(v: Version, two: bool)
    ensures Split(CoreText(v, two), '.') == Numbers(v, two)
    ensures '-' !in CoreText(v, two) && '+' !in CoreText(v, two)
  {
    CoreShape(v);
    if two {
      var a, b := Decimal(v.major), Decimal(v.minor);
      DecimalValue(v.major);
      DecimalValue(v.minor);
      assert CoreText(v, two) == a + ['.'] + b;
      SplitFirst(a, '.', b);
      SplitWhole(b, '.');
    } else {
      assert CoreText(v, two) == Core(v);
    }
  }

  lemma RecognizeText(v: Version, two: bool, build: Option<string>, digit: char -> bool)
    requires DigitClass(digit) && Acceptable(v, two, build, digit)
    ensures Recognize(VersionText(v, two, build), digit) == Some((Numbers(v, two), v.prerelease))
  {
    CoreTextShape(v, two);
    DecimalIsNumeric(v.major, digit);
    DecimalIsNumeric(v.minor, digit);
    DecimalIsNumeric(v.patch, digit);
    var core := CoreText(v, two);
    var left := core + if v.prerelease.Some? then "-" + v.prerelease.value else "";
    if v.prerelease.Some? {
      PrereleaseChars(v.prerelease.value, digit);
      assert left == core + ['-'] + v.prerelease.value;
      CutPresent(core, '-', v.prerelease.value);
    } else {
      assert left == core;
      CutAbsent(core, '-');
    }
    if build.Some? {
      assert VersionText(v, two, build) == left + ['+'] + build.value;
      CutPresent(left, '+', build.value);
    } else {
      assert VersionText(v, two, build) == left;
      CutAbsent(left, '+');
    }
  }

  lemma NumeralOf(s: string, n: nat, digit: char -> bool)
    requires IsNumeric(s, digit) && ParseU32(s) == Some(n)
    ensures s == Decimal(n) && n < U32_LIMIT
  {
    ValueDecimal(s);
  }

  /** The number part of a recognised text. */
  function CorePart(t: string): string {
    CutAt(CutAt(t, '+').0, '-').0
  }

  lemma PartsOf(t: string)
    ensures var (left, build) := CutAt(t, '+');
            var (core, pre) := CutAt(left, '-');
            t == core + (if pre.Some? then "-" + pre.value else "") + (if build.Some? then "+" + build.value else "")
  {
    CutJoins(t, '+');
    CutJoins(CutAt(t, '+').0, '-');
  }

  lemma NumbersOf(numbers: seq<string>, v: Version, digit: char -> bool)
    requires (|numbers| == 2 || |numbers| == 3) && forall n | n in numbers :: IsNumeric(n, digit)
    requires ParseU32(numbers[0]) == Some(v.major) && ParseU32(numbers[1]) == Some(v.minor)
    requires if |numbers| == 2 then v.patch == 0 else ParseU32(numbers[2]) == Some(v.patch)
    ensures numbers == Numbers(v, |numbers| == 2) && InRange(v)
  {
    assert numbers[0] in numbers && numbers[1] in numbers;
    NumeralOf(numbers[0], v.major, digit);
    NumeralOf(numbers[1], v.minor, digit);
    if |numbers| == 3 {
      assert numbers[2] in numbers;
      NumeralOf(numbers[2], v.patch, digit);
    }
  }

  lemma RecognizedText(t: string, v: Version, digit: char -> bool) returns (two: bool, build: Option<string>)
    requires ParseTrimmed(t, digit) == Some(v)
    ensures t == VersionText(v, two, build) && Acceptable(v, two, build, digit)
  {
    var numbers := Split(CorePart(t), '.');
    two, build := |numbers| == 2, CutAt(t, '+').1;
    NumbersOf(numbers, v, digit);
    PartsOf(t);
    JoinSplit(CorePart(t), '.');
    JoinNumbers(v, two);
  }

  lemma JoinNumbers(v: Version, two: bool)
    ensures Join(Numbers(v, two), '.') == CoreText(v, two)
  {
    var a, b, c := Decimal(v.major), Decimal(v.minor), Decimal(v.patch);
    if two {
      assert [a, b][1..] == [b];
      assert Numbers(v, two) == [a, b];
    } else {
      assert [a, b, c][1..] == [b, c] && [b, c][1..] == [c];
      assert Numbers(v, two) == [a, b, c];
      assert Join([b, c], '.') == b + ['.'] + c;
      assert a + ['.'] + (b + ['.'] + c) == CoreText(v, two);
    }
  }

  /** What is accepted after trimming: two or three u32 numerals without leading zeros, a missing patch
      counting as 0, then possibly a prerelease, then possibly build metadata, which is dropped. */
  lemma ParsesExactly(s: string, v: Version, digit: char -> bool)
    requires DigitClass(digit)
    ensures ParseVersion(s, digit) == Some(v) <==>
            exists two, build :: Trimmed(s) == VersionText(v, two, build) && Acceptable(v, two, build, digit)
  {
    if ParseVersion(s, digit) == Some(v) {
      var two, build := RecognizedText(Trimmed(s), v, digit);
    }
    if two, build :| Trimmed(s) == VersionText(v, two, build) && Acceptable(v, two, build, digit) {
      RecognizeText(v, two, build, digit);
      ParseDecimal(v.major);
      ParseDecimal(v.minor);
      ParseDecimal(v.patch);
    }
  }

  lemma {:induction false} LeadingGone(n: nat, s: string)
    ensures TrimStart(seq(n, _ => 'v') + s, 'v') == TrimStart(s, 'v')
  {
    var w := seq(n, _ => 'v') + s;
    if n == 0 {
      assert w == s;
    } else {
      assert w[1..] == seq(n - 1, _ => 'v') + s;
      LeadingGone(n - 1, s);
    }
  }

  lemma OneSuffixGone(s: string, suffix: string)
    requires suffix != ""
    ensures TrimEnd(s + suffix, suffix) == TrimEnd(s, suffix)
  {
    var w := s + suffix;
    assert w[|w| - |suffix|..] == suffix && w[..|w| - |suffix|] == s;
  }

  lemma {:induction false} SuffixGone(n: nat, s: string, suffix: string)
    requires suffix != "" && TrimEnd(s, suffix) == s
    ensures TrimEnd(s + Repeat(suffix, n), suffix) == s
  {
    if n == 0 {
      assert s + Repeat(suffix, n) == s;
    } else {
      assert s + Repeat(suffix, n) == s + Repeat(suffix, n - 1) + suffix;
      OneSuffixGone(s + Repeat(suffix, n - 1), suffix);
      SuffixGone(n - 1, s, suffix);
    }
  }

  function Repeat(s: string, n: nat): string {
    if n == 0 then "" else Repeat(s, n - 1) + s
  }

  /** Leading `v`s and the suffix `QX`, however often, do not matter to a text that starts with no `v`
      and does not end in `X`; neither do final `X`s, except a single one after a `Q`. */
  lemma DecorationIsTrimmed(n: nat, m: nat, text: string)
    requires text != "" && text[0] != 'v' && text[|text| - 1] != 'X'
    ensures Trimmed(seq(n, _ => 'v') + (text + Repeat("QX", m))) == text
    ensures Trimmed(seq(n, _ => 'v') + (text + Repeat("X", m))) == text <==> text[|text| - 1] != 'Q' || m != 1
  {
    LeadingGone(n, text + Repeat("QX", m));
    LeadingGone(n, text + Repeat("X", m));
    assert (text + Repeat("QX", m))[0] == text[0] && (text + Repeat("X", m))[0] == text[0];
    NoPairAtEnd(text);
    SuffixGone(m, text, "QX");
    SuffixGone(m, text, "X");
    if text[|text| - 1] == 'Q' && m == 1 {
      PairAtEnd(text);
    } else {
      NoPairAfterX(text, m);
    }
  }

  lemma PairAtEnd(text: string)
    requires text != "" && text[|text| - 1] == 'Q'
    ensures |TrimEnd(TrimEnd(text + Repeat("X", 1), "QX"), "X")| < |text|
  {
    var w := text + Repeat("X", 1);
    assert Repeat("X", 1) == "" + "X" == "X";
    assert w[|w| - 2..] == "QX" && w[..|w| - 2] == text[..|text| - 1];
    TrimEndShrinks(text[..|text| - 1], "QX");
    TrimEndShrinks(TrimEnd(w, "QX"), "X");
  }

  lemma OtherEnd(s: string, suffix: string)
    requires s != "" && suffix != "" && s[|s| - 1] != suffix[|suffix| - 1]
    ensures TrimEnd(s, suffix) == s
  {
    if |s| >= |suffix| { assert s[|s| - |suffix|..][|suffix| - 1] == s[|s| - 1]; }
  }

  lemma NoPairAtEnd(s: string)
    requires s != "" && s[|s| - 1] != 'X'
    ensures TrimEnd(s, "QX") == s && TrimEnd(s, "X") == s
  {
    OtherEnd(s, "QX");
    OtherEnd(s, "X");
  }

  lemma {:induction false} NoPairAfterX(s: string, m: nat)
    requires s != "" && s[|s| - 1] != 'X' && (s[|s| - 1] != 'Q' || m != 1)
    ensures TrimEnd(s + Repeat("X", m), "QX") == s + Repeat("X", m)
  {
    var w := s + Repeat("X", m);
    if m == 0 {
      assert w == s;
      NoPairAtEnd(s);
    } else {
      AllX(m);
      assert w[|w| - 2] == if m == 1 then s[|s| - 1] else Repeat("X", m)[m - 2];
      assert w[|w| - 2..][0] == w[|w| - 2];
    }
  }

  lemma {:induction false} AllX(m: nat)
    ensures |Repeat("X", m)| == m && forall j | 0 <= j < m :: Repeat("X", m)[j] == 'X'
  {
    if m > 0 { AllX(m - 1); }
  }

  // ---------------------------------------------------------------- the standard

  /** Items 2 and 9 of Semantic Versioning 2.0.0: ASCII letters, digits and hyphens, at least one, and
      a number has no leading zero. */
  predicate IsStandardIdentifier(s: string) {
    IsIdentifier(s) && (AllDigits(s) ==> NoLeadingZero(s))
  }

  lemma {:induction false} FirstLetter(s: string) returns (k: nat)
    requires IsIdentifier(s) && !AllDigits(s)
    ensures k < |s| && AllDigits(s[..k]) && !IsDigit(s[k])
  {
    if !IsDigit(s[0]) {
      k := 0;
    } else {
      assert s == [s[0]] + s[1..];
      assert IsIdentifier(s[1..]);
      k := FirstLetter(s[1..]);
      k := k + 1;
      assert s[..k] == [s[0]] + s[1..][..k - 1];
    }
  }

  lemma StandardIdentifierIsAccepted(s: string, digit: char -> bool)
    requires DigitClass(digit) && IsStandardIdentifier(s)
    ensures IsPrereleaseIdentifier(s, digit)
  {
    if AllDigits(s) {
      assert s[0] in s;
      assert forall c | c in s[1..] :: c in s && IsDigit(c);
      assert |s| == 1 ==> s == [s[0]];
    } else {
      var k := FirstLetter(s);
      assert s[k] in s;
      assert forall c | c in s[k + 1..] :: c in s;
      assert LetterAt(s, k, digit);
    }
  }

  predicate IsAscii(s: string) {
    forall c | c in s :: c < 128 as char
  }

  lemma AcceptedIdentifierIsStandard(s: string, digit: char -> bool)
    requires DigitClass(digit) && IsPrereleaseIdentifier(s, digit) && IsAscii(s)
    ensures IsStandardIdentifier(s)
  {
    if IsNumeric(s, digit) {
      assert forall c | c in s :: c == s[0] || c in s[1..];
    } else {
      var k :| 0 <= k < |s| && LetterAt(s, k, digit);
      assert s[k] in s;
      assert forall c | c in s :: c in s[..k] || c == s[k] || c in s[k + 1..];
      assert forall c | c in s[..k] :: c in s;
    }
  }

  predicate IsStandard(s: string) {
    forall part | part in Split(s, '.') :: IsStandardIdentifier(part)
  }

  lemma StandardIsAscii(s: string)
    requires IsStandard(s)
    ensures IsAscii(s)
  {
    JoinSplit(s, '.');
    forall x: char | x >= 128 as char ensures x !in s {
      forall part | part in Split(s, '.') ensures x !in part {
        assert IsStandardIdentifier(part);
      }
      JoinMembers(Split(s, '.'), '.', x);
    }
  }

  /** A prerelease satisfies the standard exactly if it is accepted and ASCII: what the expression
      accepts beyond the standard is all outside ASCII, and nothing else is amiss. */
  lemma PrereleaseIsStandard(s: string, digit: char -> bool)
    requires DigitClass(digit)
    ensures IsStandard(s) <==> IsPrerelease(s, digit) && IsAscii(s)
  {
    if IsStandard(s) { StandardIsAscii(s); }
    SplitChars(s, '.');
    forall part | part in Split(s, '.')
      ensures IsStandardIdentifier(part) ==> IsPrereleaseIdentifier(part, digit)
      ensures IsPrereleaseIdentifier(part, digit) && IsAscii(s) ==> IsStandardIdentifier(part)
    {
      if IsStandardIdentifier(part) { StandardIdentifierIsAccepted(part, digit); }
      if IsPrereleaseIdentifier(part, digit) && IsAscii(s) { AcceptedIdentifierIsStandard(part, digit); }
    }
  }

  /** `1` and the Arabic-Indic digit three: accepted by a class with that digit, although the standard
      knows no such character.  After a letter that digit is accepted no more. */
  lemma DigitBeyondStandard(digit: char -> bool)
    requires DigitClass(digit) && digit('\U{0663}')
    ensures IsPrerelease("1\U{0663}", digit) && !IsStandard("1\U{0663}")
    ensures !IsPrerelease("a\U{0663}", digit)
  {
    var s, t := "1\U{0663}", "a\U{0663}";
    SplitWhole(s, '.');
    assert s in Split(s, '.') && '\U{0663}' in s;
    assert IsNumeric(s, digit);
    PrereleaseIsStandard(s, digit);
    SplitWhole(t, '.');
    assert t in Split(t, '.') && t[1] in t[0 + 1..];
    assert !LetterAt(t, 0, digit) && !LetterAt(t, 1, digit);
  }

  lemma {:induction false} SplitChars(s: string, c: char)
    ensures forall part, x | part in Split(s, c) && x in part :: x in s
  {
    if s != "" { SplitChars(s[1..], c); }
  }

  /** Item 10 of the standard: build metadata is letters, digits, hyphens and dots, and no dot is first,
      last or next to another. */
  lemma BuildIsStandard(s: string)
    ensures IsBuild(s) <==> (forall c | c in s :: IsIdentifierChar(c) || c == '.') && "" !in Split(s, '.')
  {
    SplitChars(s, '.');
    JoinSplit(s, '.');
    if IsBuild(s) {
      forall x: char | !IsIdentifierChar(x) && x != '.' ensures x !in s {
        forall part | part in Split(s, '.') ensures x !in part { assert IsIdentifier(part); }
        JoinMembers(Split(s, '.'), '.', x);
      }
    }
  }
}
