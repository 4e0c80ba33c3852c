/** Strings: splitting, replacing and decimal numerals. */
module Text {
  import opened Wrappers

  // ---------------------------------------------------------------- split and join

  function Split(s: string, c: char): (parts: seq<string>)
    ensures |parts| > 0
  {
    if s == "" then [""]
    else
      var rest := Split(s[1..], c);
      if s[0] == c then [""] + rest else [[s[0]] + rest[0]] + rest[1..]
  }

  function Join(parts: seq<string>, c: char): string
    requires |parts| > 0
  {
    if |parts| == 1 then parts[0] else parts[0] + [c] + Join(parts[1..], c)
  }

  lemma {:induction false} SplitWhole(s: string, c: char)
    requires c !in s
    ensures Split(s, c) == [s]
  {
    if s != "" {
      SplitWhole(s[1..], c);
      assert [s[0]] + s[1..] == s;
    }
  }

  lemma {:induction false} SplitFirst(p: string, c: char, rest: string)
    requires c !in p
    ensures Split(p + [c] + rest, c) == [p] + Split(rest, c)
  {
    var s := p + [c] + rest;
    if p == "" {
      assert s == [c] + rest;
      assert s[1..] == rest;
    } else {
      SplitFirst(p[1..], c, rest);
      assert s[1..] == p[1..] + [c] + rest;
      assert [p[0]] + p[1..] == p;
    }
  }

  lemma {:induction false} SplitJoin(parts: seq<string>, c: char)
    requires |parts| > 0 && forall p | p in parts :: c !in p
    ensures Split(Join(parts, c), c) == parts
  {
    if |parts| == 1 {
      SplitWhole(parts[0], c);
    } else {
      SplitFirst(parts[0], c, Join(parts[1..], c));
      SplitJoin(parts[1..], c);
    }
  }

  lemma {:induction false} JoinSplit(s: string, c: char)
    ensures Join(Split(s, c), c) == s && forall p | p in Split(s, c) :: c !in p
  {
    if s != "" {
      JoinSplit(s[1..], c);
      var rest := Split(s[1..], c);
      if s[0] == c {
        assert ([""] + rest)[1..] == rest;
        assert "" + [c] + s[1..] == s;
      } else {
        var parts := [[s[0]] + rest[0]] + rest[1..];
        if |rest| > 1 {
          assert parts[1..] == rest[1..];
        }
        assert forall p | p in rest[1..] :: p in rest;
        assert Join(parts, c) == [s[0]] + Join(rest, c);
        assert [s[0]] + s[1..] == s;
      }
    }
  }

  lemma {:induction false} JoinLast(parts: seq<string>, c: char, last: string)
    requires |parts| > 0
    ensures Join(parts + [last], c) == Join(parts, c) + [c] + last
  {
    if |parts| == 1 {
      assert (parts + [last])[1..] == [last];
    } else {
      assert (parts + [last])[1..] == parts[1..] + [last];
      JoinLast(parts[1..], c, last);
      var j := Join(parts[1..], c);
      assert parts[0] + [c] + (j + [c] + last) == parts[0] + [c] + j + [c] + last;
    }
  }

  lemma {:induction false} JoinMembers(parts: seq<string>, c: char, x: char)
    requires |parts| > 0 && x != c && forall p | p in parts :: x !in p
    ensures x !in Join(parts, c)
  {
    if |parts| > 1 { JoinMembers(parts[1..], c, x); }
  }

  // ---------------------------------------------------------------- replace

  /** `str::replace`: non-overlapping occurrences from left to right. */
  function Replace(s: string, pat: string, rep: string): string
    requires pat != ""
    decreases |s|
  {
    if s == "" then ""
    else if pat <= s then rep + Replace(s[|pat|..], pat, rep)
    else [s[0]] + Replace(s[1..], pat, rep)
  }

  /** What precedes every occurrence is copied. */
  lemma {:induction false} ReplaceSkips(u: string, v: string, pat: string, rep: string)
    requires pat != "" && forall i | 0 <= i < |u| :: !(pat <= (u + v)[i..])
    ensures Replace(u + v, pat, rep) == u + Replace(v, pat, rep)
  {
    if u == "" {
      assert u + v == v;
    } else {
      assert (u + v)[0..] == u + v;
      assert (u + v)[1..] == u[1..] + v;
      forall i | 0 <= i < |u[1..]| ensures !(pat <= (u[1..] + v)[i..]) {
        assert (u[1..] + v)[i..] == (u + v)[i + 1..];
      }
      ReplaceSkips(u[1..], v, pat, rep);
      assert [u[0]] + (u[1..] + Replace(v, pat, rep)) == u + Replace(v, pat, rep);
    }
  }

  /** `rsplit_once(c).0`, or the whole string without a `c`. */
  function BeforeLast(s: string, c: char): string {
    if c !in s then s
    else if s[|s| - 1] == c then s[..|s| - 1]
    else BeforeLast(s[..|s| - 1], c)
  }

  lemma {:induction false} BeforeLastCuts(s: string, c: char, t: string)
    requires c !in t
    ensures BeforeLast(s + [c] + t, c) == s
  {
    var w := s + [c] + t;
    if t == "" {
      assert w[..|w| - 1] == s;
    } else {
      assert w[|w| - 1] == t[|t| - 1];
      assert w[..|w| - 1] == s + [c] + t[..|t| - 1];
      assert w[|s|] == c;
      BeforeLastCuts(s, c, t[..|t| - 1]);
    }
  }

  // ---------------------------------------------------------------- decimal numerals

  predicate IsDigit(c: char) {
    '0' <= c <= '9'
  }

  predicate AllDigits(s: string) {
    forall c | c in s :: IsDigit(c)
  }

  function DigitValue(c: char): (d: nat)
    requires IsDigit(c)
    ensures d < 10 && '0' + d as char == c
  {
    c as int - '0' as int
  }

  function Value(s: string): nat
    requires AllDigits(s)
  {
    if s == "" then 0
    else
      assert s[|s| - 1] in s;
      10 * Value(s[..|s| - 1]) + DigitValue(s[|s| - 1])
  }

  function Decimal(n: nat): string {
    var digit := ['0' + (n % 10) as char];
    if n < 10 then digit else Decimal(n / 10) + digit
  }

  predicate NoLeadingZero(s: string) {
    |s| > 0 && (s[0] == '0' ==> |s| == 1)
  }

  lemma {:induction false} DecimalValue(n: nat)
    ensures AllDigits(Decimal(n)) && NoLeadingZero(Decimal(n)) && Value(Decimal(n)) == n
    ensures Decimal(n)[0] == '0' <==> n == 0
  {
    if n >= 10 {
      DecimalValue(n / 10);
      var d := Decimal(n);
      assert d[..|d| - 1] == Decimal(n / 10);
    } else {
      var d := Decimal(n);
      assert d[..|d| - 1] == "";
    }
  }

  lemma ValueDecimalStep(front: string, last: char)
    requires AllDigits(front) && IsDigit(last) && Value(front) > 0 && Decimal(Value(front)) == front
    ensures AllDigits(front + [last])
    ensures Value(front + [last]) > 0 && Decimal(Value(front + [last])) == front + [last]
  {}

  lemma {:induction false} ValueDecimal(s: string)
    requires AllDigits(s) && NoLeadingZero(s)
    ensures Decimal(Value(s)) == s
    ensures s[0] != '0' ==> Value(s) > 0
  {
    var front, last := s[..|s| - 1], s[|s| - 1];
    assert last in s;
    if |s| == 1 {
      assert front == "" && Value(s) == DigitValue(last);
      assert s == [last];
    } else {
      assert front[0] == s[0];
      ValueDecimal(front);
      ValueDecimalStep(front, last);
      assert s == front + [last];
    }
  }

  lemma {:induction false} ValueOfPrefix(s: string, t: string)
    requires AllDigits(s + t)
    ensures AllDigits(s) && Value(s) <= Value(s + t)
  {
    assert forall c | c in s :: c in s + t;
    if t == "" {
      assert s + t == s;
    } else {
      assert (s + t)[..|s + t| - 1] == s + t[..|t| - 1];
      assert (s + t)[|s + t| - 1] in s + t;
      assert forall c | c in s + t[..|t| - 1] :: c in s + t;
      ValueOfPrefix(s, t[..|t| - 1]);
    }
  }

  /** A numeral that begins with the numeral of `i` is at least `i`. */
  lemma DecimalPrefix(i: nat, j: nat)
    requires Decimal(i) <= Decimal(j)
    ensures i <= j
  {
    DecimalValue(i);
    DecimalValue(j);
    var t := Decimal(j)[|Decimal(i)|..];
    assert Decimal(j) == Decimal(i) + t;
    ValueOfPrefix(Decimal(i), t);
  }

  const U32_LIMIT: nat := 0x1_0000_0000

  /** `str::parse::<u32>`: an optional plus sign and at least one digit. */
  function ParseU32(s: string): Option<nat> {
    var digits := if |s| > 0 && s[0] == '+' then s[1..] else s;
    if digits != "" && AllDigits(digits) && Value(digits) < U32_LIMIT then Some(Value(digits)) else None
  }

  lemma ParseDecimal(n: nat)
    requires n < U32_LIMIT
    ensures ParseU32(Decimal(n)) == Some(n)
  {
    DecimalValue(n);
    assert Decimal(n)[0] in Decimal(n);
  }

  function Zeros(n: nat): string {
    seq(n, _ => '0')
  }

  lemma {:induction false} ValueAfterZeros(n: nat, s: string)
    requires AllDigits(s)
    ensures AllDigits(Zeros(n) + s) && Value(Zeros(n) + s) == Value(s)
    decreases n + |s|
  {
    assert forall j | 0 <= j < n :: Zeros(n)[j] == '0';
    var w := Zeros(n) + s;
    if s != "" {
      assert w[..|w| - 1] == Zeros(n) + s[..|s| - 1] && w[|w| - 1] == s[|s| - 1];
      assert forall c | c in s[..|s| - 1] :: c in s;
      ValueAfterZeros(n, s[..|s| - 1]);
    } else if n > 0 {
      assert w[..n - 1] == Zeros(n - 1) + s && w[n - 1] == '0';
      ValueAfterZeros(n - 1, s);
    } else {
      assert w == s;
    }
  }

  lemma OneZeroMore(n: nat, d: string)
    ensures Zeros(n + 1) + d == ['0'] + (Zeros(n) + d)
  {
    assert Zeros(n + 1) == ['0'] + Zeros(n);
  }

  lemma LeadingZero(rest: string)
    requires AllDigits(rest)
    ensures AllDigits(['0'] + rest) && Value(['0'] + rest) == Value(rest)
  {
    ValueAfterZeros(1, rest);
    assert Zeros(1) == ['0'];
  }

  /** Digits are a numeral after any number of zeros. */
  lemma {:induction false} DigitsAreNumeral(s: string) returns (n: nat)
    requires AllDigits(s) && s != ""
    ensures s == Zeros(n) + Decimal(Value(s))
  {
    if NoLeadingZero(s) {
      ValueDecimal(s);
      n := 0;
      assert Zeros(0) + s == s;
    } else {
      var rest := s[1..];
      assert s == ['0'] + rest && forall c | c in rest :: c in s;
      n := DigitsAreNumeral(rest);
      LeadingZero(rest);
      OneZeroMore(n, Decimal(Value(s)));
      n := n + 1;
    }
  }

  /** An optional plus sign, `z` zeros and the numeral of `n`. */
  predicate IsNumeralText(s: string, z: nat, n: nat) {
    s == Zeros(z) + Decimal(n) || s == "+" + (Zeros(z) + Decimal(n))
  }

  lemma NumeralTextOf(s: string, n: nat) returns (z: nat)
    requires ParseU32(s) == Some(n)
    ensures n < U32_LIMIT && IsNumeralText(s, z, n)
  {
    var digits := if |s| > 0 && s[0] == '+' then s[1..] else s;
    z := DigitsAreNumeral(digits);
    assert s == digits || s == "+" + digits;
  }

  lemma NumeralTextReads(s: string, z: nat, n: nat)
    requires n < U32_LIMIT && IsNumeralText(s, z, n)
    ensures ParseU32(s) == Some(n)
  {
    var digits := Zeros(z) + Decimal(n);
    DecimalValue(n);
    ValueAfterZeros(z, Decimal(n));
    assert digits[0] in digits;
    assert ("+" + digits)[1..] == digits;
  }

  /** What reads as `n`. */
  lemma U32Texts(s: string, n: nat)
    ensures ParseU32(s) == Some(n) <==> n < U32_LIMIT && exists z: nat :: IsNumeralText(s, z, n)
  {
    if ParseU32(s) == Some(n) {
      var z := NumeralTextOf(s, n);
    }
    if z: nat :| n < U32_LIMIT && IsNumeralText(s, z, n) {
      NumeralTextReads(s, z, n);
    }
  }
}
