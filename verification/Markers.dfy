/** Finding the derivation of a key in a template, and the address path built from it. */
module Markers {
  import opened Wrappers
  import opened Text
  import opened Template
  import Bip389

  // ---------------------------------------------------------------- the search

  predicate Ends(c: char) {
    c == ',' || c == ')'
  }

  /** Length of the text before the first `,` or `)`. */
  function StepsRun(s: string): (n: nat)
    ensures n <= |s|
  {
    if s == "" || Ends(s[0]) then 0 else StepsRun(s[1..]) + 1
  }

  /** Length of the capture that starts here: `@`, digits, `/` and at least one character other than
      `,` and `)`; zero if none starts here. */
  function CaptureLength(s: string): (n: nat)
    requires s != ""
    ensures n <= |s|
  {
    var d := DigitRun(s[1..]);
    if s[0] == '@' && d > 0 && d + 1 < |s| && s[d + 1] == '/' && StepsRun(s[d + 2..]) > 0
    then d + 2 + StepsRun(s[d + 2..])
    else 0
  }

  /** All captures, from left to right. */
  function Captures(s: string): seq<string>
    decreases |s|
  {
    if s == "" then []
    else
      var n := CaptureLength(s);
      if n > 0 then [s[..n]] + Captures(s[n..]) else Captures(s[1..])
  }

  /** `str::contains`. */
  predicate Contains(s: string, pat: string) {
    exists o :: 0 <= o <= |s| && pat <= s[o..]
  }

  lemma ContainsIsSubstring(s: string, pat: string)
    ensures Contains(s, pat) <==> exists before, after :: s == before + pat + after
  {
    if o :| 0 <= o <= |s| && pat <= s[o..] {
      assert s == s[..o] + pat + s[o + |pat|..];
    }
    if before, after :| s == before + pat + after {
      assert s[|before|..] == pat + after;
    }
  }

  /** `split_once('/')`, the second half. */
  function AfterSlash(s: string): Option<string> {
    if s == "" then None else if s[0] == '/' then Some(s[1..]) else AfterSlash(s[1..])
  }

  type Derivations = Result<(seq<Bip389.Path>, Bip389.Wildcard), Bip389.ParseError>

  /** The first capture that mentions the key and ends in a wildcard decides; a capture that mentions
      the key and cannot be parsed ends the search with its error. */
  function Search(i: nat, captures: seq<string>): Derivations {
    if captures == [] then Ok(([], Bip389.NoWildcard))
    else if Contains(captures[0], Marker(i)) && AfterSlash(captures[0]).Some? then
      match Bip389.Parse(AfterSlash(captures[0]).value)
      case Ok((paths, w)) => if w.NoWildcard? then Search(i, captures[1..]) else Ok((paths, w))
      case Err(e) => Err(e)
    else Search(i, captures[1..])
  }

  function ExtractFirstAppendedDerivation(i: nat, template: string): Derivations {
    Search(i, Captures(template))
  }

  /** What the expression matches: an `@`, at least one digit, a slash, and at least one character, none
      of which is `,` or `)`. */
  predicate IsCapture(c: string) {
    exists d :: 0 <= d < |c| && DigitsAndSteps(c, d)
  }

  predicate DigitsAndSteps(c: string, d: int) {
    && 0 < d && d + 2 < |c| && c[0] == '@' && AllDigits(c[1..d + 1]) && c[d + 1] == '/'
    && ',' !in c[d + 2..] && ')' !in c[d + 2..]
  }

  lemma {:induction false} StepsRunIsClean(s: string)
    ensures var n := StepsRun(s); ',' !in s[..n] && ')' !in s[..n]
  {
    if s != "" && !Ends(s[0]) {
      StepsRunIsClean(s[1..]);
      assert s[..StepsRun(s)] == [s[0]] + s[1..][..StepsRun(s[1..])];
    }
  }

  lemma CaptureIsMatch(s: string)
    requires s != "" && CaptureLength(s) > 0
    ensures IsCapture(s[..CaptureLength(s)])
  {
    var d := DigitRun(s[1..]);
    var c := s[..CaptureLength(s)];
    StepsRunIsClean(s[d + 2..]);
    assert c[1..d + 1] == s[1..][..d];
    assert c[d + 2..] == s[d + 2..][..StepsRun(s[d + 2..])];
    assert DigitsAndSteps(c, d);
  }

  lemma {:induction false} StepsRunIsLongest(s: string, n: nat)
    requires n <= |s| && ',' !in s[..n] && ')' !in s[..n]
    ensures n <= StepsRun(s)
  {
    if n > 0 {
      assert s[0] in s[..n] && s[1..][..n - 1] == s[..n][1..];
      StepsRunIsLongest(s[1..], n - 1);
    }
  }

  /** No match that starts here is longer than the capture. */
  lemma CaptureIsLongest(s: string, n: nat)
    requires s != "" && n <= |s| && IsCapture(s[..n])
    ensures n <= CaptureLength(s)
  {
    var c := s[..n];
    var d :| 0 <= d < |c| && DigitsAndSteps(c, d);
    DigitRunOf(c[1..d + 1], s[d + 1..]);
    assert s[1..] == c[1..d + 1] + s[d + 1..];
    assert c[d + 2..] == s[d + 2..][..n - (d + 2)];
    StepsRunIsLongest(s[d + 2..], n - (d + 2));
  }

  /** A text that contains a match of the expression has a capture. */
  lemma {:induction false} NoMatchMissed(s: string, o: nat, n: nat)
    requires o <= n <= |s| && IsCapture(s[o..n])
    ensures Captures(s) != []
    decreases |s|
  {
    if CaptureLength(s) == 0 {
      if o == 0 {
        assert s[o..n] == s[..n];
        CaptureIsLongest(s, n);
      } else {
        assert s[1..][o - 1..n - 1] == s[o..n];
        NoMatchMissed(s[1..], o - 1, n - 1);
      }
    }
  }

  /** In any text whatever each capture is a match of the expression. */
  lemma {:induction false} CapturesAreMatches(s: string)
    ensures forall c | c in Captures(s) :: IsCapture(c)
    decreases |s|
  {
    if s != "" {
      var n := CaptureLength(s);
      if n > 0 {
        CaptureIsMatch(s);
        CapturesAreMatches(s[n..]);
      } else {
        CapturesAreMatches(s[1..]);
      }
    }
  }

  // ---------------------------------------------------------------- captures of a rendered template

  /** A piece of text that follows a match: a slash, the steps, and what ends them. */
  predicate Follows(t: string, last: bool) {
    && |t| > 1 && t[0] == '/'
    && StepsRun(t[1..]) > 0
    && (StepsRun(t[1..]) + 1 < |t| || last)
  }

  /** The steps of a match stand in the piece of text after it. */
  predicate HasSteps(after: seq<Piece>) {
    after != [] && after[0].Plain? && Follows(after[0].text, |after| == 1)
  }

  /** A match without steps is followed by nothing, by another match, or by text that starts with
      neither a digit nor a slash and steps. */
  predicate IsBare(after: seq<Piece>) {
    after != [] && after[0].Plain? ==>
      var t := after[0].text;
      t != "" && !IsDigit(t[0]) && (t[0] == '/' ==> if |t| > 1 then Ends(t[1]) else |after| == 1)
  }

  function StepsIn(t: string): string {
    if t == "" then "" else t[1..][..StepsRun(t[1..])]
  }

  /** Every match has its steps in the piece of text after it or has none. */
  predicate KeysClosed(ps: seq<Piece>) {
    ps != [] ==> (ps[0].Match? ==> HasSteps(ps[1..]) || IsBare(ps[1..])) && KeysClosed(ps[1..])
  }

  /** Key numbers and steps of the matches that have steps, in order. */
  function Occurrences(ps: seq<Piece>, keys: seq<string>): seq<(nat, string)>
    requires Covers(keys, ps)
  {
    if ps == [] then []
    else
      var rest := Occurrences(ps[1..], keys);
      if ps[0].Match? && HasSteps(ps[1..]) then [(IndexOf(keys, ps[0].text), StepsIn(ps[1].text))] + rest else rest
  }

  function Capture(occ: (nat, string)): string {
    Marker(occ.0) + "/" + occ.1
  }

  function AllCaptures(occs: seq<(nat, string)>): seq<string> {
    seq(|occs|, q requires 0 <= q < |occs| => Capture(occs[q]))
  }

  lemma {:induction false} CapturesSkip(t: string, rest: string)
    requires '@' !in t
    ensures Captures(t + rest) == Captures(rest)
  {
    if t == "" {
      assert t + rest == rest;
    } else {
      assert (t + rest)[1..] == t[1..] + rest;
      CapturesSkip(t[1..], rest);
    }
  }

  lemma {:induction false} StepsRunOf(t: string, rest: string)
    requires StepsRun(t) < |t| || rest == ""
    ensures StepsRun(t + rest) == StepsRun(t)
  {
    if rest == "" {
      assert t + rest == t;
    } else if !Ends(t[0]) {
      assert (t + rest)[1..] == t[1..] + rest;
      StepsRunOf(t[1..], rest);
    }
  }

  lemma MarkedSlices(d: string, t: string, rest: string, m: nat)
    requires t != "" && t[0] == '/' && m < |t|
    ensures var s, n := "@" + d + t + rest, |d| + 2 + m;
            && s[1..] == d + (t + rest) && n <= |s|
            && s[|d| + 1] == '/' && s[|d| + 2..] == t[1..] + rest
            && s[..n] == "@" + d + "/" + t[1..][..m] && s[n..] == t[m + 1..] + rest
  {}

  lemma MarkedLength(i: nat, t: string, rest: string)
    requires Follows(t, rest == "")
    ensures CaptureLength(Marker(i) + t + rest) == |Decimal(i)| + 2 + StepsRun(t[1..])
  {
    DecimalValue(i);
    MarkedSlices(Decimal(i), t, rest, StepsRun(t[1..]));
    DigitRunOf(Decimal(i), t + rest);
    StepsRunOf(t[1..], rest);
  }

  lemma CapturesHere(s: string, n: nat, capture: string, rest: string)
    requires s != "" && CaptureLength(s) == n > 0 && s[..n] == capture && s[n..] == rest
    ensures Captures(s) == [capture] + Captures(rest)
  {}

  lemma CapturesOne(i: nat, t: string, rest: string)
    requires '@' !in t && Follows(t, rest == "")
    ensures Captures(Marker(i) + t + rest) == [Capture((i, StepsIn(t)))] + Captures(rest)
  {
    var m := StepsRun(t[1..]);
    MarkedLength(i, t, rest);
    MarkedSlices(Decimal(i), t, rest, m);
    CapturesHere(Marker(i) + t + rest, |Decimal(i)| + 2 + m, Capture((i, StepsIn(t))), t[m + 1..] + rest);
    CapturesSkip(t[m + 1..], rest);
  }

  lemma AfterText(ps: seq<Piece>, keys: seq<string>)
    requires Covers(keys, ps) && KeysClosed(ps) && ps != [] && ps[0].Plain?
    ensures Covers(keys, ps[1..]) && KeysClosed(ps[1..]) && Occurrences(ps, keys) == Occurrences(ps[1..], keys)
    ensures Render(ps, keys, |keys|) == ps[0].text + Render(ps[1..], keys, |keys|)
  {}

  lemma AfterMatch(ps: seq<Piece>, keys: seq<string>)
    requires Covers(keys, ps) && KeysClosed(ps) && ps != [] && ps[0].Match?
    ensures Covers(keys, ps[1..]) && KeysClosed(ps[1..]) && (HasSteps(ps[1..]) || IsBare(ps[1..]))
    ensures Render(ps, keys, |keys|) == Marker(IndexOf(keys, ps[0].text)) + Render(ps[1..], keys, |keys|)
    ensures Occurrences(ps, keys) ==
            (if HasSteps(ps[1..]) then [(IndexOf(keys, ps[0].text), StepsIn(ps[1].text))] else [])
            + Occurrences(ps[1..], keys)
  {}

  /** The text after a match with steps. */
  lemma StepsText(after: seq<Piece>, keys: seq<string>)
    requires WellCut(after, keys) && HasSteps(after)
    ensures WellCut(after[1..], keys) && '@' !in after[0].text
    ensures Render(after, keys, |keys|) == after[0].text + Render(after[1..], keys, |keys|)
    ensures Follows(after[0].text, Render(after[1..], keys, |keys|) == "")
  {
    assert after[0] in after;
  }

  lemma CapturesBefore(i: nat, t: string, rest: string)
    requires '@' !in t && Follows(t, rest == "")
    ensures Captures(Marker(i) + (t + rest)) == [Capture((i, StepsIn(t)))] + Captures(rest)
  {
    assert Marker(i) + (t + rest) == Marker(i) + t + rest;
    CapturesOne(i, t, rest);
  }

  lemma CapturesWithSteps(i: nat, after: seq<Piece>, keys: seq<string>)
    requires WellCut(after, keys) && HasSteps(after)
    ensures WellCut(after[1..], keys)
    ensures Captures(Marker(i) + Render(after, keys, |keys|)) ==
            [Capture((i, StepsIn(after[0].text)))] + Captures(Render(after[1..], keys, |keys|))
  {
    StepsText(after, keys);
    CapturesBefore(i, after[0].text, Render(after[1..], keys, |keys|));
  }

  /** After a marker whose match has no steps. */
  predicate NoStepsText(rest: string) {
    rest == "" || (!IsDigit(rest[0]) && (rest[0] == '/' ==> |rest| == 1 || Ends(rest[1])))
  }

  lemma BareText(after: seq<Piece>, keys: seq<string>)
    requires WellCut(after, keys) && IsBare(after)
    ensures NoStepsText(Render(after, keys, |keys|))
  {
    if after != [] && after[0].Plain? {
      assert Render(after, keys, |keys|) == after[0].text + Render(after[1..], keys, |keys|);
    }
  }

  lemma CapturesSkipMarker(i: nat, rest: string)
    requires NoStepsText(rest)
    ensures Captures(Marker(i) + rest) == Captures(rest)
  {
    var s := Marker(i) + rest;
    DecimalValue(i);
    assert s[1..] == Decimal(i) + rest;
    DigitRunOf(Decimal(i), rest);
    assert |rest| > 0 ==> s[|Decimal(i)| + 1] == rest[0];
    assert |rest| > 0 ==> s[|Decimal(i)| + 2..] == rest[1..];
    assert CaptureLength(s) == 0;
    assert '@' !in Decimal(i);
    CapturesSkip(Decimal(i), rest);
  }

  lemma AllCapturesCons(occs: seq<(nat, string)>)
    requires occs != []
    ensures AllCaptures(occs) == [Capture(occs[0])] + AllCaptures(occs[1..])
  {}

  /** The regex finds one capture per match with steps: its marker, a slash and its steps. */
  lemma {:induction false} CapturesOfRendering(ps: seq<Piece>, keys: seq<string>)
    requires WellCut(ps, keys) && KeysClosed(ps)
    ensures Captures(Render(ps, keys, |keys|)) == AllCaptures(Occurrences(ps, keys))
    decreases |ps|
  {
    if ps != [] {
      var occs := Occurrences(ps, keys);
      if ps[0].Plain? {
        AfterText(ps, keys);
        CapturesSkip(ps[0].text, Render(ps[1..], keys, |keys|));
        CapturesOfRendering(ps[1..], keys);
      } else {
        AfterMatch(ps, keys);
        if HasSteps(ps[1..]) {
          CapturesWithSteps(IndexOf(keys, ps[0].text), ps[1..], keys);
          AfterText(ps[1..], keys);
          CapturesOfRendering(ps[1..][1..], keys);
          AllCapturesCons(occs);
        } else {
          BareText(ps[1..], keys);
          CapturesSkipMarker(IndexOf(keys, ps[0].text), Render(ps[1..], keys, |keys|));
          CapturesOfRendering(ps[1..], keys);
        }
      }
    }
  }

  // ---------------------------------------------------------------- the substring test

  lemma {:induction false} AfterFirstSlash(t: string, rest: string)
    requires '/' !in t
    ensures AfterSlash(t + ['/'] + rest) == Some(rest)
  {
    var s := t + ['/'] + rest;
    if t == "" {
      assert s[1..] == rest;
    } else {
      assert s[1..] == t[1..] + ['/'] + rest;
      AfterFirstSlash(t[1..], rest);
    }
  }

  lemma ContainsAtFront(s: string, pat: string)
    requires s != "" && pat != "" && pat[0] == '@' && '@' !in s[1..]
    ensures Contains(s, pat) <==> pat <= s
  {
    assert s[0..] == s;
    forall o | 0 < o <= |s| ensures !(pat <= s[o..]) {
      assert o < |s| ==> s[o..][0] == s[1..][o - 1];
    }
  }

  lemma NumeralPrefix(di: string, dj: string, rest: string)
    requires AllDigits(di)
    ensures di <= dj + "/" + rest <==> di <= dj
  {
    var s := dj + "/" + rest;
    assert s[|dj|] == '/';
    assert |di| > |dj| ==> di[|dj|] in di;
  }

  lemma PrefixAfterFirst(s: string, c: char, d: string)
    requires s != "" && s[0] == c
    ensures [c] + d <= s <==> d <= s[1..]
  {}

  lemma CaptureShape(occ: (nat, string))
    requires '@' !in occ.1
    ensures var s := Capture(occ); s != "" && s[0] == '@' && s[1..] == Decimal(occ.0) + "/" + occ.1 && '@' !in s[1..]
  {
    DecimalValue(occ.0);
    assert '@' !in Decimal(occ.0);
  }

  /** A capture with one marker mentions `@i` exactly if the numeral of its key begins with that of i. */
  lemma MentionsByPrefix(i: nat, occ: (nat, string))
    requires '@' !in occ.1
    ensures Contains(Capture(occ), Marker(i)) <==> Decimal(i) <= Decimal(occ.0)
  {
    CaptureShape(occ);
    DecimalValue(i);
    ContainsAtFront(Capture(occ), Marker(i));
    PrefixAfterFirst(Capture(occ), '@', Decimal(i));
    NumeralPrefix(Decimal(i), Decimal(occ.0), occ.1);
  }

  lemma StepsOfCapture(occ: (nat, string))
    ensures AfterSlash(Capture(occ)) == Some(occ.1)
  {
    DecimalValue(occ.0);
    assert '/' !in Marker(occ.0);
    AfterFirstSlash(Marker(occ.0), occ.1);
  }

  // ---------------------------------------------------------------- main result

  /** Steps that parse but carry no wildcard: the search goes on after them. */
  predicate Passes(steps: string) {
    Bip389.Parse(steps).Ok? && Bip389.Parse(steps).value.1.NoWildcard?
  }

  /** The search for `@i` ends at this occurrence. */
  predicate Decides(i: nat, occ: (nat, string)) {
    Decimal(i) <= Decimal(occ.0) && !Passes(occ.1)
  }

  function FirstDecider(i: nat, occs: seq<(nat, string)>): (n: nat)
    ensures n <= |occs| && (n < |occs| ==> Decides(i, occs[n]))
    ensures forall j | 0 <= j < n :: !Decides(i, occs[j])
  {
    if occs == [] || Decides(i, occs[0]) then 0 else FirstDecider(i, occs[1..]) + 1
  }

  /** What the first deciding occurrence parses to, or nothing if there is none. */
  function Selected(i: nat, occs: seq<(nat, string)>): Derivations {
    var n := FirstDecider(i, occs);
    if n < |occs| then Bip389.Parse(occs[n].1) else Ok(([], Bip389.NoWildcard))
  }

  predicate NoAt(occs: seq<(nat, string)>) {
    forall occ | occ in occs :: '@' !in occ.1
  }

  lemma {:induction false} OccurrencesHaveNoAt(ps: seq<Piece>, keys: seq<string>)
    requires WellCut(ps, keys)
    ensures NoAt(Occurrences(ps, keys))
  {
    if ps != [] {
      OccurrencesHaveNoAt(ps[1..], keys);
      if ps[0].Match? && HasSteps(ps[1..]) {
        assert ps[1] in ps && '@' !in ps[1].text;
        assert forall c | c in StepsIn(ps[1].text) :: c in ps[1].text;
      }
    }
  }

  /** The search returns what the first deciding occurrence parses to. */
  lemma {:induction false} SearchStopsAtDecider(i: nat, occs: seq<(nat, string)>)
    requires NoAt(occs)
    ensures Search(i, AllCaptures(occs)) == Selected(i, occs)
  {
    if occs != [] {
      assert occs[0] in occs;
      MentionsByPrefix(i, occs[0]);
      StepsOfCapture(occs[0]);
      AllCapturesCons(occs);
      SearchStopsAtDecider(i, occs[1..]);
    }
  }

  lemma SelectedSkips(i: nat, occ: (nat, string), occs: seq<(nat, string)>)
    requires !Decides(i, occ)
    ensures Selected(i, [occ] + occs) == Selected(i, occs)
  {
    FirstDeciderSkips(i, occ, occs);
  }

  lemma FirstDeciderSkips(i: nat, occ: (nat, string), occs: seq<(nat, string)>)
    requires !Decides(i, occ)
    ensures FirstDecider(i, [occ] + occs) == FirstDecider(i, occs) + 1
  {
    assert ([occ] + occs)[1..] == occs;
  }

  lemma PassingHasPath(steps: string)
    ensures Passes(steps) ==> Bip389.Parse(steps).value.0 != []
  {
    if Passes(steps) && Bip389.Parse(steps).value.0 == [] {
      Bip389.NoPathMeansWildcard(steps);
    }
  }

  /** Steps that parse without a wildcard are never what is selected. */
  lemma PassingIsNotSelected(i: nat, occs: seq<(nat, string)>, steps: string)
    requires Passes(steps)
    ensures Selected(i, occs) != Bip389.Parse(steps)
  {
    PassingHasPath(steps);
  }

  /** The match in place `m` decides on its own steps if no match before it mentions `@i`. */
  lemma {:induction false} OwnIsSelected(i: nat, ps: seq<Piece>, keys: seq<string>, m: nat)
    requires Covers(keys, ps) && m < |ps| && ps[m].Match? && IndexOf(keys, ps[m].text) == i && HasSteps(ps[m + 1..])
    requires forall p | 0 <= p < m && ps[p].Match? :: !(Decimal(i) <= Decimal(IndexOf(keys, ps[p].text)))
    ensures var own := StepsIn(ps[m + 1].text);
            Selected(i, Occurrences(ps, keys)) == Bip389.Parse(own) <==> !Passes(own)
    decreases m
  {
    var own, rest := StepsIn(ps[m + 1].text), Occurrences(ps[1..], keys);
    if Passes(own) {
      PassingIsNotSelected(i, Occurrences(ps, keys), own);
    } else if m == 0 {
      assert Occurrences(ps, keys)[0] == (i, own);
    } else {
      assert ps[1..][m - 1] == ps[m] && ps[1..][m] == ps[m + 1] && ps[1..][m..] == ps[m + 1..];
      OwnIsSelected(i, ps[1..], keys, m - 1);
      if ps[0].Match? && HasSteps(ps[1..]) {
        SelectedSkips(i, (IndexOf(keys, ps[0].text), StepsIn(ps[1].text)), rest);
      }
    }
  }

  lemma {:induction false} KeysPrefix(ps: seq<Piece>, n: nat)
    requires n <= |ps|
    ensures Keys(ps[..n]) <= Keys(ps)
  {
    if n < |ps| {
      KeysPrefix(ps[..|ps| - 1], n);
      assert ps[..|ps| - 1][..n] == ps[..n];
    } else {
      assert ps[..n] == ps;
    }
  }

  /** What is matched before the first match of a key has a smaller number. */
  lemma EarlierNumberIsSmaller(ps: seq<Piece>, m: nat, p: nat)
    requires p < m < |ps| && ps[p].Match? && ps[m].Match? && ps[m] !in ps[..m]
    ensures ps[p].text in Keys(ps) && ps[m].text in Keys(ps)
    ensures IndexOf(Keys(ps), ps[p].text) < IndexOf(Keys(ps), ps[m].text)
  {
    var earlier := Keys(ps[..m]);
    KeysAreMatches(ps);
    KeysAreMatches(ps[..m]);
    KeysPrefix(ps, m);
    assert ps[p] in ps && ps[m] in ps && ps[p] in ps[..m];
    assert Match(ps[p].text) == ps[p] && Match(ps[m].text) == ps[m];
    IndexOfGrows(earlier, Keys(ps), ps[p].text);
    var i := IndexOf(Keys(ps), ps[m].text);
    assert forall j | 0 <= j < |earlier| :: earlier[j] in earlier && Keys(ps)[j] == earlier[j];
  }

  /** Up to any match that is left, cutting the checksum changes nothing. */
  lemma {:induction false} CutIsPrefix(ps: seq<Piece>, m: nat)
    requires m < |CutHash(ps)| && CutHash(ps)[m].Match?
    ensures m < |ps| && CutHash(ps)[..m + 1] == ps[..m + 1]
  {
    if HasHash(ps[1..]) && m > 0 {
      CutIsPrefix(ps[1..], m - 1);
      assert CutHash(ps)[..m + 1] == [ps[0]] + CutHash(ps[1..])[..m];
      assert ps[..m + 1] == [ps[0]] + ps[1..][..m];
    }
  }

  /** The key occurrences of a policy before its checksum, and the template extracted from it. */
  function OccurrencesIn(ps: seq<Piece>): seq<(nat, string)>
    requires Faithful(ps)
  {
    TemplateIsRendering(ps);
    Occurrences(CutHash(ps), Keys(ps))
  }

  function Extracted(ps: seq<Piece>): string
    requires Faithful(ps)
  {
    TemplateIsRendering(ps);
    TemplateOf(ps)
  }

  /** In an extracted template the search for `@i` returns what follows the first marker with steps
      whose numeral begins with that of i, unless that parses without a wildcard, then the next such
      marker; it finds nothing exactly if there is none. */
  lemma FindsFirstDecider(ps: seq<Piece>, i: nat)
    requires Faithful(ps) && KeysClosed(CutHash(ps))
    ensures ExtractFirstAppendedDerivation(i, Extracted(ps)) == Selected(i, OccurrencesIn(ps))
    ensures ExtractFirstAppendedDerivation(i, Extracted(ps)) == Ok(([], Bip389.NoWildcard)) <==>
            forall q | 0 <= q < |OccurrencesIn(ps)| :: !Decides(i, OccurrencesIn(ps)[q])
  {
    TemplateIsRendering(ps);
    CapturesOfRendering(CutHash(ps), Keys(ps));
    OccurrencesHaveNoAt(CutHash(ps), Keys(ps));
    SearchStopsAtDecider(i, OccurrencesIn(ps));
  }

  /** The first match of key i in the policy before its checksum, if it has steps. */
  predicate FirstHasSteps(ps: seq<Piece>, i: nat, m: nat)
    requires Faithful(ps)
  {
    var cut := CutHash(ps);
    i < |Keys(ps)| && m < |cut| && cut[m] == Match(Keys(ps)[i]) && cut[m] !in cut[..m] && HasSteps(cut[m + 1..])
  }

  function OwnSteps(ps: seq<Piece>, i: nat, m: nat): string
    requires Faithful(ps) && FirstHasSteps(ps, i, m)
  {
    StepsIn(CutHash(ps)[m + 1].text)
  }

  lemma EarlierDoNotMention(ps: seq<Piece>, i: nat, m: nat, p: nat)
    requires Faithful(ps) && FirstHasSteps(ps, i, m) && p < m && CutHash(ps)[p].Match?
    ensures CutHash(ps)[p].text in Keys(ps)
    ensures !(Decimal(i) <= Decimal(IndexOf(Keys(ps), CutHash(ps)[p].text)))
  {
    var cut := CutHash(ps);
    CutIsPrefix(ps, m);
    assert cut[m] == cut[..m + 1][m] == ps[m] && cut[p] == cut[..m + 1][p] == ps[p];
    assert cut[..m] == cut[..m + 1][..m] == ps[..m];
    EarlierNumberIsSmaller(ps, m, p);
    KeysAreMatches(ps);
    var j := IndexOf(Keys(ps), ps[p].text);
    assert IndexOf(Keys(ps), ps[m].text) == i;
    if Decimal(i) <= Decimal(j) { DecimalPrefix(i, j); }
  }

  /** If the first match of key i has steps, the substring test for `@i` selects them, and not those of
      a longer number such as `@10` for `@1`, exactly if they do not parse without a wildcard. */
  lemma SelectsOwnDerivation(ps: seq<Piece>, i: nat, m: nat)
    requires Faithful(ps) && KeysClosed(CutHash(ps)) && FirstHasSteps(ps, i, m)
    ensures ExtractFirstAppendedDerivation(i, Extracted(ps)) == Bip389.Parse(OwnSteps(ps, i, m)) <==>
            !Passes(OwnSteps(ps, i, m))
  {
    FindsFirstDecider(ps, i);
    TemplateIsRendering(ps);
    KeysAreMatches(ps);
    forall p | 0 <= p < m && CutHash(ps)[p].Match?
      ensures !(Decimal(i) <= Decimal(IndexOf(Keys(ps), CutHash(ps)[p].text)))
    {
      EarlierDoNotMention(ps, i, m, p);
    }
    OwnIsSelected(i, CutHash(ps), Keys(ps), m);
  }

  /** Whether or not earlier matches of key i are bare: its first steps are selected exactly if they do
      not parse without a wildcard and no earlier steps of a longer number decide, unless those parse to
      the same. */
  lemma SelectsLaterDerivation(ps: seq<Piece>, i: nat, q: nat)
    requires Faithful(ps) && KeysClosed(CutHash(ps))
    requires var occs := OccurrencesIn(ps);
             q < |occs| && occs[q].0 == i && forall j | 0 <= j < q :: occs[j].0 != i
    ensures var occs := OccurrencesIn(ps);
            ExtractFirstAppendedDerivation(i, Extracted(ps)) == Bip389.Parse(occs[q].1) <==>
              && !Passes(occs[q].1)
              && forall p | 0 <= p < q && Decides(i, occs[p]) && (forall j | 0 <= j < p :: !Decides(i, occs[j])) ::
                   Bip389.Parse(occs[p].1) == Bip389.Parse(occs[q].1)
  {
    var occs := OccurrencesIn(ps);
    FindsFirstDecider(ps, i);
    FirstDeciderIsSelected(i, occs, q);
  }

  lemma FirstDeciderIsSelected(i: nat, occs: seq<(nat, string)>, q: nat)
    requires q < |occs| && occs[q].0 == i
    ensures Selected(i, occs) == Bip389.Parse(occs[q].1) <==>
              && !Passes(occs[q].1)
              && forall p | 0 <= p < q && Decides(i, occs[p]) && (forall j | 0 <= j < p :: !Decides(i, occs[j])) ::
                   Bip389.Parse(occs[p].1) == Bip389.Parse(occs[q].1)
  {
    if Passes(occs[q].1) {
      PassingIsNotSelected(i, occs, occs[q].1);
    } else {
      var n := FirstDecider(i, occs);
      assert Decides(i, occs[q]) && n <= q;
      assert forall p | 0 <= p < q && Decides(i, occs[p]) && (forall j | 0 <= j < p :: !Decides(i, occs[j])) :: p == n;
    }
  }

  /** If the first match of key i carries printed steps, the search returns the paths read off those
      steps and their wildcard exactly if there is a wildcard. */
  lemma FindsPrintedSteps(ps: seq<Piece>, i: nat, m: nat, steps: seq<Bip389.Step>, w: Bip389.Wildcard, mark: char)
    requires Faithful(ps) && KeysClosed(CutHash(ps)) && FirstHasSteps(ps, i, m)
    requires Bip389.ValidSteps(steps) && (mark == '\'' || mark == 'h')
    requires OwnSteps(ps, i, m) == Bip389.Print(steps, w, mark)
    ensures ExtractFirstAppendedDerivation(i, Extracted(ps)) == Ok((Bip389.Paths(steps), w)) <==> !w.NoWildcard?
  {
    SelectsOwnDerivation(ps, i, m);
    Bip389.ParsePrint(steps, w, mark);
  }

  // ---------------------------------------------------------------- policies in which another key is found

  /** What closes the steps of entry `p` in a list of `n`. */
  function Closing(p: nat, n: nat): string {
    if p + 1 == n then "))" else ","
  }

  /** A key number and its steps, empty for none. */
  type Entry = (nat, string)

  function TextAfter(steps: string, closing: string): string {
    (if steps == "" then "" else "/" + steps) + closing
  }

  predicate InBounds(keys: seq<string>, entries: seq<Entry>) {
    forall e | e in entries :: e.0 < |keys|
  }

  /** The entries from number `p` on, separated by commas. */
  function ListFrom(keys: seq<string>, entries: seq<Entry>, p: nat): seq<Piece>
    requires InBounds(keys, entries) && p <= |entries|
    decreases |entries| - p
  {
    if p == |entries| then []
    else
      assert entries[p] in entries;
      [Match(keys[entries[p].0]), Plain(TextAfter(entries[p].1, Closing(p, |entries|)))] + ListFrom(keys, entries, p + 1)
  }

  function MultiPolicy(keys: seq<string>, entries: seq<Entry>): seq<Piece>
    requires InBounds(keys, entries)
  {
    [Plain("wsh(multi(1,")] + ListFrom(keys, entries, 0)
  }

  /** The length of an extended public key. */
  const KEY_LENGTH: nat := 111

  /** A key with its one `x` in front. */
  predicate SampleKey(k: string) {
    KeyOk(k) && |k| == KEY_LENGTH && k[0] == 'x' && 'x' !in k[1..]
  }

  predicate SimpleSteps(t: string) {
    'x' !in t && '@' !in t && '#' !in t && ',' !in t && ')' !in t
  }

  /** The first entries name the keys in order, further ones may repeat them. */
  predicate SimpleList(keys: seq<string>, entries: seq<Entry>) {
    && InBounds(keys, entries) && |keys| <= |entries|
    && (forall k | k in keys :: SampleKey(k))
    && (forall e | e in entries :: SimpleSteps(e.1))
    && (forall i, j | 0 <= i < j < |keys| :: keys[i] != keys[j])
    && (forall p | 0 <= p < |keys| :: entries[p].0 == p)
  }

  /** `Keys`, read from the front after `seen`. */
  function KeysFront(seen: seq<string>, ps: seq<Piece>): seq<string>
    decreases |ps|
  {
    if ps == [] then seen
    else KeysFront(if ps[0].Match? && ps[0].text !in seen then seen + [ps[0].text] else seen, ps[1..])
  }

  lemma {:induction false} KeysOnward(before: seq<Piece>, ps: seq<Piece>)
    ensures Keys(before + ps) == KeysFront(Keys(before), ps)
    decreases |ps|
  {
    if ps == [] {
      assert before + ps == before;
    } else {
      var next := before + [ps[0]];
      assert next[..|next| - 1] == before;
      assert next + ps[1..] == before + ps;
      KeysOnward(next, ps[1..]);
    }
  }

  lemma ListTail(keys: seq<string>, entries: seq<Entry>, p: nat)
    requires InBounds(keys, entries) && p < |entries|
    ensures entries[p].0 < |keys|
    ensures var ps := ListFrom(keys, entries, p);
            && |ps| >= 2 && ps[0] == Match(keys[entries[p].0])
            && ps[1] == Plain(TextAfter(entries[p].1, Closing(p, |entries|)))
            && ps[1..][0] == ps[1] && ps[1..][1..] == ps[2..] == ListFrom(keys, entries, p + 1)
            && (|ps| == 2 <==> p + 1 == |entries|)
  {
    assert entries[p] in entries;
  }

  lemma {:induction false} ListKeys(keys: seq<string>, entries: seq<Entry>, p: nat)
    requires SimpleList(keys, entries) && p <= |entries|
    ensures KeysFront(if p < |keys| then keys[..p] else keys, ListFrom(keys, entries, p)) == keys
    decreases |entries| - p
  {
    if p < |entries| {
      ListTail(keys, entries, p);
      if p < |keys| {
        assert keys[p] !in keys[..p];
        assert keys[..p] + [keys[p]] == keys[..p + 1];
        assert p + 1 == |keys| ==> keys[..p + 1] == keys;
      }
      ListKeys(keys, entries, p + 1);
    }
  }

  lemma OnlyHere(text: string, after: string, k: string, o: nat)
    requires SampleKey(k) && o < |text| && k <= text[o..] + after
    ensures text[o] == 'x' && (o == 0 && |text| == KEY_LENGTH ==> k == text) && (o > 0 ==> 'x' in text[1..])
  {
    if o > 0 { assert text[o] == text[1..][o - 1]; }
    assert k[0] == (text[o..] + after)[0];
    if o == 0 && |text| == KEY_LENGTH {
      assert k == (text[o..] + after)[..KEY_LENGTH] == text;
    }
  }

  /** Such keys occur only where they are listed if the text between them has no `x`. */
  lemma OnlyKeysStartWithX(ps: seq<Piece>, keys: seq<string>)
    requires ps != [] && (ps[0].Match? ==> ps[0].text in keys) && (ps[0].Plain? ==> 'x' !in ps[0].text)
    requires (forall k | k in keys :: SampleKey(k)) && OnlyAtMatches(ps[1..], keys)
    ensures OnlyAtMatches(ps, keys)
  {
    var text, after := ps[0].text, Flatten(ps[1..]);
    forall k, o | k in keys && 0 <= o < |text| && k <= text[o..] + after
      ensures ps[0].Match? && o == 0 && k == text
    {
      OnlyHere(text, after, k, o);
    }
  }

  predicate IsClean(p: Piece, keys: seq<string>) {
    '#' !in p.text && if p.Match? then p.text in keys else '@' !in p.text
  }

  lemma ListedAreClean(keys: seq<string>, entries: seq<Entry>, p: nat)
    requires SimpleList(keys, entries) && p < |entries|
    ensures entries[p].0 < |keys| && IsClean(Match(keys[entries[p].0]), keys)
    ensures IsClean(Plain(TextAfter(entries[p].1, Closing(p, |entries|))), keys)
    ensures 'x' !in TextAfter(entries[p].1, Closing(p, |entries|))
  {
    assert entries[p] in entries && SimpleSteps(entries[p].1);
    assert SampleKey(keys[entries[p].0]);
  }

  lemma {:induction false} ListIsClean(keys: seq<string>, entries: seq<Entry>, p: nat)
    requires SimpleList(keys, entries) && p <= |entries|
    ensures forall x | x in ListFrom(keys, entries, p) :: IsClean(x, keys)
    decreases |entries| - p
  {
    if p < |entries| {
      ListedAreClean(keys, entries, p);
      ListIsClean(keys, entries, p + 1);
    }
  }

  lemma CleanIsWellCut(ps: seq<Piece>, keys: seq<string>)
    requires (forall x | x in ps :: IsClean(x, keys)) && forall k | k in keys :: KeyOk(k)
    ensures WellCut(ps, keys) && !HasHash(ps)
  {}

  lemma KeysAreOk(keys: seq<string>, entries: seq<Entry>)
    requires SimpleList(keys, entries)
    ensures forall k | k in keys :: KeyOk(k)
  {
    forall k | k in keys ensures KeyOk(k) { assert SampleKey(k); }
  }

  lemma ListIsWellCut(keys: seq<string>, entries: seq<Entry>, p: nat)
    requires SimpleList(keys, entries) && p <= |entries|
    ensures WellCut(ListFrom(keys, entries, p), keys)
  {
    ListIsClean(keys, entries, p);
    KeysAreOk(keys, entries);
    CleanIsWellCut(ListFrom(keys, entries, p), keys);
  }

  lemma {:induction false} ListOnlyAtMatches(keys: seq<string>, entries: seq<Entry>, p: nat)
    requires SimpleList(keys, entries) && p <= |entries|
    ensures OnlyAtMatches(ListFrom(keys, entries, p), keys)
    decreases |entries| - p
  {
    if p < |entries| {
      ListOnlyAtMatches(keys, entries, p + 1);
      ListTail(keys, entries, p);
      ListedAreClean(keys, entries, p);
      OnlyKeysStartWithX(ListFrom(keys, entries, p)[1..], keys);
      OnlyKeysStartWithX(ListFrom(keys, entries, p), keys);
    }
  }

  lemma {:induction false} StepsRunTo(t: string, rest: string)
    requires ',' !in t && ')' !in t && rest != "" && Ends(rest[0])
    ensures StepsRun(t + rest) == |t|
  {
    if t == "" {
      assert t + rest == rest;
    } else {
      assert (t + rest)[1..] == t[1..] + rest;
      StepsRunTo(t[1..], rest);
    }
  }

  lemma SimpleStepsFollow(t: string, closing: string)
    requires SimpleSteps(t) && t != "" && closing != "" && Ends(closing[0])
    ensures Follows(TextAfter(t, closing), false) && StepsIn(TextAfter(t, closing)) == t
  {
    assert TextAfter(t, closing)[1..] == t + closing;
    StepsRunTo(t, closing);
  }

  /** An entry of the list has its steps, or is bare. */
  lemma ListedIsClosed(keys: seq<string>, entries: seq<Entry>, p: nat)
    requires SimpleList(keys, entries) && p < |entries|
    ensures var after := ListFrom(keys, entries, p)[1..];
            if entries[p].1 == "" then IsBare(after) && !HasSteps(after)
            else HasSteps(after) && StepsIn(after[0].text) == entries[p].1
  {
    ListTail(keys, entries, p);
    assert entries[p] in entries;
    if entries[p].1 != "" { SimpleStepsFollow(entries[p].1, Closing(p, |entries|)); }
  }

  function WithSteps(entries: seq<Entry>): seq<Entry> {
    if entries == [] then []
    else (if entries[0].1 == "" then [] else [entries[0]]) + WithSteps(entries[1..])
  }

  lemma EntryOccurs(ps: seq<Piece>, keys: seq<string>)
    requires WellCut(ps, keys) && |ps| >= 2 && ps[0].Match? && ps[1].Plain?
    requires KeysClosed(ps[1..][1..]) && (HasSteps(ps[1..]) || IsBare(ps[1..]))
    ensures KeysClosed(ps) && WellCut(ps[1..][1..], keys)
    ensures Occurrences(ps, keys) ==
            (if HasSteps(ps[1..]) then [(IndexOf(keys, ps[0].text), StepsIn(ps[1].text))] else [])
            + Occurrences(ps[1..][1..], keys)
  {
    AfterText(ps[1..], keys);
    AfterMatch(ps, keys);
  }

  lemma IndexOfDistinct(keys: seq<string>, j: nat)
    requires j < |keys| && forall i, k | 0 <= i < k < |keys| :: keys[i] != keys[k]
    ensures IndexOf(keys, keys[j]) == j
  {}

  lemma ListEntryOccurs(keys: seq<string>, entries: seq<Entry>, p: nat)
    requires SimpleList(keys, entries) && p < |entries|
    requires WellCut(ListFrom(keys, entries, p), keys) && KeysClosed(ListFrom(keys, entries, p + 1))
    ensures KeysClosed(ListFrom(keys, entries, p)) && WellCut(ListFrom(keys, entries, p + 1), keys)
    ensures Occurrences(ListFrom(keys, entries, p), keys) ==
            (if entries[p].1 == "" then [] else [entries[p]]) + Occurrences(ListFrom(keys, entries, p + 1), keys)
  {
    var ps := ListFrom(keys, entries, p);
    ListTail(keys, entries, p);
    ListedIsClosed(keys, entries, p);
    EntryOccurs(ps, keys);
    IndexOfDistinct(keys, entries[p].0);
  }

  lemma {:induction false} ListOccurs(keys: seq<string>, entries: seq<Entry>, p: nat)
    requires SimpleList(keys, entries) && p <= |entries| && WellCut(ListFrom(keys, entries, p), keys)
    ensures KeysClosed(ListFrom(keys, entries, p))
    ensures Occurrences(ListFrom(keys, entries, p), keys) == WithSteps(entries[p..])
    decreases |entries| - p
  {
    if p < |entries| {
      ListIsWellCut(keys, entries, p + 1);
      ListOccurs(keys, entries, p + 1);
      ListEntryOccurs(keys, entries, p);
      WithStepsFrom(entries, p);
    }
  }

  lemma WithStepsFrom(entries: seq<Entry>, p: nat)
    requires p < |entries|
    ensures WithSteps(entries[p..]) == (if entries[p].1 == "" then [] else [entries[p]]) + WithSteps(entries[p + 1..])
  {
    assert entries[p..][1..] == entries[p + 1..];
  }

  lemma MultiPolicyKeys(keys: seq<string>, entries: seq<Entry>)
    requires SimpleList(keys, entries)
    ensures Keys(MultiPolicy(keys, entries)) == keys
  {
    var first := [Plain("wsh(multi(1,")];
    KeysOnward(first, ListFrom(keys, entries, 0));
    assert Keys(first) == [] && (|keys| > 0 ==> keys[..0] == []);
    ListKeys(keys, entries, 0);
  }

  lemma MultiPolicyIsClean(keys: seq<string>, entries: seq<Entry>)
    requires SimpleList(keys, entries)
    ensures WellCut(MultiPolicy(keys, entries), keys) && !HasHash(MultiPolicy(keys, entries))
  {
    ListIsClean(keys, entries, 0);
    assert IsClean(Plain("wsh(multi(1,"), keys);
    KeysAreOk(keys, entries);
    CleanIsWellCut(MultiPolicy(keys, entries), keys);
  }

  lemma MultiPolicyOnlyAtMatches(keys: seq<string>, entries: seq<Entry>)
    requires SimpleList(keys, entries)
    ensures OnlyAtMatches(MultiPolicy(keys, entries), keys)
  {
    var ps := MultiPolicy(keys, entries);
    ListOnlyAtMatches(keys, entries, 0);
    assert ps[1..] == ListFrom(keys, entries, 0);
    assert ps[0].text == "wsh(multi(1,";
    OnlyKeysStartWithX(ps, keys);
  }

  lemma MultiPolicyIsFaithful(keys: seq<string>, entries: seq<Entry>)
    requires SimpleList(keys, entries)
    ensures var ps := MultiPolicy(keys, entries); Faithful(ps) && CutHash(ps) == ps && Keys(ps) == keys
  {
    MultiPolicyKeys(keys, entries);
    MultiPolicyIsClean(keys, entries);
    MultiPolicyOnlyAtMatches(keys, entries);
    NothingToCut(MultiPolicy(keys, entries));
  }

  /** Listing keys with and without steps makes a policy whose occurrences are just those with steps. */
  lemma MultiPolicyOccurs(keys: seq<string>, entries: seq<Entry>)
    requires SimpleList(keys, entries)
    ensures var ps := MultiPolicy(keys, entries);
            Faithful(ps) && KeysClosed(CutHash(ps)) && OccurrencesIn(ps) == WithSteps(entries)
  {
    var ps := MultiPolicy(keys, entries);
    MultiPolicyIsFaithful(keys, entries);
    ListIsWellCut(keys, entries, 0);
    ListOccurs(keys, entries, 0);
    assert entries[0..] == entries;
    assert ps[1..] == ListFrom(keys, entries, 0);
  }

  lemma IsSampleKey(ones: string, last: char)
    requires |ones| == 106 && (forall c | c in ones :: c == '1') && last !in "x@#"
    ensures SampleKey("xpub" + ones + [last])
  {
    var k := "xpub" + ones + [last];
    assert k[1..] == "pub" + ones + [last];
  }

  lemma ElevenKeys() returns (keys: seq<string>)
    ensures |keys| == 11 && forall i, j | 0 <= i < j < 11 :: keys[i] != keys[j]
    ensures forall k | k in keys :: SampleKey(k)
  {
    var letters, ones := "ABCDEFGHJKL", seq(106, _ => '1');
    keys := seq(11, q requires 0 <= q < 11 => "xpub" + ones + [letters[q]]);
    assert forall j | 0 <= j < 106 :: ones[j] == '1';
    forall q | 0 <= q < 11 ensures SampleKey(keys[q]) && keys[q][110] == letters[q] {
      assert letters[q] in letters;
      IsSampleKey(ones, letters[q]);
    }
  }

  lemma ParsesDigit(n: nat)
    requires n < 10
    ensures Bip389.Parse(Decimal(n)) == Ok(([[Bip389.Normal(n)]], Bip389.NoWildcard))
    ensures Bip389.Parse(Decimal(n) + "/*") == Ok(([[Bip389.Normal(n)]], Bip389.Unhardened))
  {
    var steps, d := [Bip389.One(Bip389.Index(Bip389.Normal(n), 'h'))], Decimal(n);
    assert Bip389.ValidStep(steps[0]);
    assert d + "" == d;
    assert Bip389.PrintSteps(steps) == [d];
    assert [d] + [] == [d] && [d] + ["*"] == [d, "*"];
    assert Join([d, "*"], '/') == d + "/*" by { assert [d, "*"][1..] == ["*"]; }
    assert Bip389.Paths(steps) == [[Bip389.Normal(n)]] by {
      assert steps[1..] == [];
      assert Bip389.PathCount(steps) == 1;
      assert Bip389.PathAt(steps, 0)[0] == Bip389.Normal(n);
      assert Bip389.PathAt(steps, 0) == [Bip389.Normal(n)];
    }
    Bip389.ParsePrint(steps, Bip389.NoWildcard, 'h');
    Bip389.ParsePrint(steps, Bip389.Unhardened, 'h');
  }

  lemma SampleParses()
    ensures Bip389.Parse("0") == Ok(([[Bip389.Normal(0)]], Bip389.NoWildcard))
    ensures Bip389.Parse("0/*") == Ok(([[Bip389.Normal(0)]], Bip389.Unhardened))
    ensures Bip389.Parse("1/*") == Ok(([[Bip389.Normal(1)]], Bip389.Unhardened))
  {
    ParsesDigit(0);
    ParsesDigit(1);
    assert Decimal(0) == "0" && Decimal(1) == "1";
    assert "0" + "/*" == "0/*" && "1" + "/*" == "1/*";
  }

  lemma TenBeginsWithOne(j: nat)
    requires j <= 10
    ensures Decimal(1) <= Decimal(j) <==> j == 1 || j == 10
  {
    if j == 10 {
      assert Decimal(10) == Decimal(1) + "0";
    } else {
      assert Decimal(1)[0] == '1' && Decimal(j)[0] == '0' + j as char;
      assert '0' + j as char == '1' <==> j == 1;
    }
  }

  lemma {:induction false} AllHaveSteps(entries: seq<Entry>)
    requires forall e | e in entries :: e.1 != ""
    ensures WithSteps(entries) == entries
  {
    if entries != [] {
      AllHaveSteps(entries[1..]);
      assert entries == [entries[0]] + entries[1..];
    }
  }

  lemma {:induction false} NoneHasSteps(entries: seq<Entry>, more: seq<Entry>)
    requires forall e | e in entries :: e.1 == ""
    ensures WithSteps(entries + more) == WithSteps(more)
  {
    if entries == [] {
      assert entries + more == more;
    } else {
      assert (entries + more)[1..] == entries[1..] + more;
      NoneHasSteps(entries[1..], more);
    }
  }

  lemma ElevenSelects(occs: seq<(nat, string)>)
    requires |occs| == 11 && forall j | 0 <= j < 11 :: occs[j] == (j, if j == 1 then "0" else "0/*")
    ensures Selected(1, occs) == Bip389.Parse("0/*")
  {
    SampleParses();
    forall j | 0 <= j <= 10 ensures Decides(1, occs[j]) <==> j == 10 {
      TenBeginsWithOne(j);
    }
    assert occs[10].1 == "0/*";
  }

  /** Eleven keys, each with steps, of which those of key 1 alone have no wildcard. */
  lemma AllWithSteps(keys: seq<string>, entries: seq<Entry>, ps: seq<Piece>)
    requires SimpleList(keys, entries) && ps == MultiPolicy(keys, entries) && |entries| == 11
    requires forall j | 0 <= j < 11 :: entries[j] == (j, if j == 1 then "0" else "0/*")
    ensures Faithful(ps) && KeysClosed(CutHash(ps)) && OccurrencesIn(ps) == entries
    ensures ExtractFirstAppendedDerivation(1, Extracted(ps)) == Bip389.Parse("0/*")
  {
    MultiPolicyOccurs(keys, entries);
    AllHaveSteps(entries);
    ElevenSelects(entries);
    FindsFirstDecider(ps, 1);
  }

  /** A policy in which key 1's own derivation `0` is not found: the search for `@1` returns what
      follows `@10`. */
  lemma FindsOtherKey() returns (ps: seq<Piece>)
    ensures Faithful(ps) && KeysClosed(CutHash(ps)) && |OccurrencesIn(ps)| == 11
    ensures OccurrencesIn(ps)[1] == (1, "0") && OccurrencesIn(ps)[10] == (10, "0/*") && Passes("0")
    ensures ExtractFirstAppendedDerivation(1, Extracted(ps)) == Bip389.Parse("0/*") != Bip389.Parse("0")
  {
    var keys := ElevenKeys();
    var entries := seq(11, j requires 0 <= j < 11 => (j, if j == 1 then "0" else "0/*"));
    assert SimpleSteps("0") && SimpleSteps("0/*");
    ps := MultiPolicy(keys, entries);
    AllWithSteps(keys, entries, ps);
    SampleParses();
  }

  lemma BareThenSteps(keys: seq<string>, bare: seq<Entry>, ps: seq<Piece>)
    requires var entries := bare + [(10, "0/*"), (1, "1/*")];
             SimpleList(keys, entries) && ps == MultiPolicy(keys, entries) && forall e | e in bare :: e.1 == ""
    ensures Faithful(ps) && KeysClosed(CutHash(ps)) && OccurrencesIn(ps) == [(10, "0/*"), (1, "1/*")]
    ensures ExtractFirstAppendedDerivation(1, Extracted(ps)) == Bip389.Parse("0/*")
  {
    var occs: seq<Entry> := [(10, "0/*"), (1, "1/*")];
    MultiPolicyOccurs(keys, bare + occs);
    NoneHasSteps(bare, occs);
    AllHaveSteps(occs);
    SampleParses();
    TenBeginsWithOne(10);
    assert Decides(1, occs[0]) && FirstDecider(1, occs) == 0;
    FindsFirstDecider(ps, 1);
  }

  /** A policy in which key 1 first stands without steps and later, after key 10, with steps that end in
      a wildcard: the search for `@1` returns what follows `@10`. */
  lemma BareKeyIsMissed() returns (ps: seq<Piece>)
    ensures Faithful(ps) && KeysClosed(CutHash(ps)) && OccurrencesIn(ps) == [(10, "0/*"), (1, "1/*")]
    ensures !Passes("1/*")
    ensures ExtractFirstAppendedDerivation(1, Extracted(ps)) == Bip389.Parse("0/*") != Bip389.Parse("1/*")
  {
    var keys := ElevenKeys();
    var bare := seq(10, j requires 0 <= j < 10 => (j, ""));
    assert SimpleSteps("") && SimpleSteps("0/*") && SimpleSteps("1/*");
    ps := MultiPolicy(keys, bare + [(10, "0/*"), (1, "1/*")]);
    BareThenSteps(keys, bare, ps);
    SampleParses();
  }

  // ---------------------------------------------------------------- the address path

  datatype KeyInfo = KeyInfo(fingerprint: Option<nat>, path: Option<Bip389.Path>)

  datatype AddressError = BadPolicy(e: Bip389.ParseError) | IndexOutOfRange

  function Child(w: Bip389.Wildcard, index: nat): Bip389.Path {
    match w
    case NoWildcard => []
    case Unhardened => [Bip389.Normal(index)]
    case HardenedWildcard => [Bip389.Hardened(index)]
  }

  function Origin(key: KeyInfo): Bip389.Path {
    if key.path.Some? then key.path.value else []
  }

  /** The receive branch or, if there are two and change is asked for, the change branch. */
  function Branch(paths: seq<Bip389.Path>, change: bool): Bip389.Path {
    if paths == [] then [] else if change && |paths| >= 2 then paths[1] else paths[0]
  }

  /** The first key with this fingerprint. */
  function FirstWith(fg: nat, keys: seq<KeyInfo>): (k: nat)
    ensures k <= |keys| && (k < |keys| ==> keys[k].fingerprint == Some(fg))
    ensures forall j | 0 <= j < k :: keys[j].fingerprint != Some(fg)
  {
    if keys == [] || keys[0].fingerprint == Some(fg) then 0 else FirstWith(fg, keys[1..]) + 1
  }

  /** The path for the first key with the device's fingerprint: its origin, its receive or change branch
      and the address index. */
  function Address(fg: nat, keys: seq<KeyInfo>, template: string, index: nat, change: bool)
    : Result<Bip389.Path, AddressError>
  {
    var k := FirstWith(fg, keys);
    if k == |keys| then Ok([])
    else
      match ExtractFirstAppendedDerivation(k, template)
      case Err(e) => Err(BadPolicy(e))
      case Ok((paths, w)) =>
        if !w.NoWildcard? && index >= Bip389.INDEX_LIMIT then Err(IndexOutOfRange)
        else Ok(Origin(keys[k]) + Branch(paths, change) + Child(w, index))
  }

  predicate HasMultipath(steps: seq<Bip389.Step>) {
    exists s :: s in steps && s.Many?
  }

  lemma {:induction false} PathsOfSteps(steps: seq<Bip389.Step>)
    requires forall s | s in steps :: Bip389.ValidStep(s)
    ensures Bip389.PathCount(steps) >= 1
    ensures Bip389.PathCount(steps) >= 2 <==> HasMultipath(steps)
  {
    if steps != [] {
      assert steps == [steps[0]] + steps[1..];
      PathsOfSteps(steps[1..]);
      assert Bip389.ValidStep(steps[0]);
    }
  }

  /** In an extracted policy the address of a key with printed steps and a wildcard is its origin, if it
      has one, the change path of those steps if change is asked for and they have a multipath step and
      else their first path, and the index, hardened if the wildcard is. */
  lemma AddressOfPolicy(ps: seq<Piece>, infos: seq<KeyInfo>, fg: nat, index: nat, change: bool,
                        m: nat, steps: seq<Bip389.Step>, w: Bip389.Wildcard, mark: char)
    requires Faithful(ps) && KeysClosed(CutHash(ps)) && |infos| == |Keys(ps)|
    requires Bip389.ValidSteps(steps) && (mark == '\'' || mark == 'h') && !w.NoWildcard?
    requires var k := FirstWith(fg, infos);
             k < |infos| && FirstHasSteps(ps, k, m) && OwnSteps(ps, k, m) == Bip389.Print(steps, w, mark)
    ensures var r, path := Address(fg, infos, Extracted(ps), index, change), infos[FirstWith(fg, infos)].path;
            if index >= Bip389.INDEX_LIMIT then r == Err(IndexOutOfRange)
            else r == Ok((if path.Some? then path.value else [])
                         + Bip389.PathAt(steps, if change && HasMultipath(steps) then 1 else 0)
                         + [if w.Unhardened? then Bip389.Normal(index) else Bip389.Hardened(index)])
  {
    FindsPrintedSteps(ps, FirstWith(fg, infos), m, steps, w, mark);
    PathsOfSteps(steps);
  }

  /** Without a key of this fingerprint the path is empty. */
  lemma AddressOfStranger(infos: seq<KeyInfo>, fg: nat, template: string, index: nat, change: bool)
    requires forall j | 0 <= j < |infos| :: infos[j].fingerprint != Some(fg)
    ensures Address(fg, infos, template, index, change) == Ok([])
  {
    assert FirstWith(fg, infos) == |infos|;
  }

  /** A key for which no wildcard is found has its origin for every index. */
  lemma AddressWithoutWildcard(ps: seq<Piece>, infos: seq<KeyInfo>, fg: nat, index: nat, change: bool)
    requires Faithful(ps) && KeysClosed(CutHash(ps)) && FirstWith(fg, infos) < |infos|
    requires forall q | 0 <= q < |OccurrencesIn(ps)| :: !Decides(FirstWith(fg, infos), OccurrencesIn(ps)[q])
    ensures var path := infos[FirstWith(fg, infos)].path;
            Address(fg, infos, Extracted(ps), index, change) == Ok(if path.Some? then path.value else [])
  {
    FindsFirstDecider(ps, FirstWith(fg, infos));
    var origin := Origin(infos[FirstWith(fg, infos)]);
    assert origin + [] + [] == origin;
  }

  /** If the key's own first steps do not parse, that error is reported. */
  lemma AddressOfBadSteps(ps: seq<Piece>, infos: seq<KeyInfo>, fg: nat, index: nat, change: bool, m: nat)
    requires Faithful(ps) && KeysClosed(CutHash(ps)) && FirstWith(fg, infos) < |infos|
    requires FirstHasSteps(ps, FirstWith(fg, infos), m)
    requires Bip389.Parse(OwnSteps(ps, FirstWith(fg, infos), m)).Err?
    ensures Address(fg, infos, Extracted(ps), index, change) ==
            Err(BadPolicy(Bip389.Parse(OwnSteps(ps, FirstWith(fg, infos), m)).error))
  {
    SelectsOwnDerivation(ps, FirstWith(fg, infos), m);
  }

  /** The loop of `display_address` over the keys of a policy. */
  method AddressPath(fg: nat, keys: seq<KeyInfo>, template: string, index: nat, change: bool)
    returns (r: Result<Bip389.Path, AddressError>)
    ensures r == Address(fg, keys, template, index, change)
  {
    var path: Bip389.Path := [];
    for keyIndex := 0 to |keys|
      invariant path == [] && forall j | 0 <= j < keyIndex :: keys[j].fingerprint != Some(fg)
    {
      var key := keys[keyIndex];
      if Some(fg) == key.fingerprint {
        if key.path.Some? {
          path := key.path.value;
        }
        var derivation := ExtractFirstAppendedDerivation(keyIndex, template);
        if derivation.Err? {
          return Err(BadPolicy(derivation.error));
        }
        var (appendedPath, wildcard) := derivation.value;
        if |appendedPath| >= 2 {
          path := path + if change then appendedPath[1] else appendedPath[0];
        } else if appendedPath != [] {
          path := path + appendedPath[0];
        }
        assert path == Origin(key) + Branch(appendedPath, change);
        assert path + [] == path;
        if !wildcard.NoWildcard? {
          if index >= Bip389.INDEX_LIMIT {
            return Err(IndexOutOfRange);
          }
          path := path + Child(wildcard, index);
        }
        return Ok(path);
      }
    }
    return Ok(path);
  }
}
