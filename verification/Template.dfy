/** Extracting the distinct keys of a policy and replacing them by `@0`, `@1`, ... */
module Template {
  import opened Wrappers
  import opened Text

  /** The policy as the key expression of the regex cuts it: matches, and the text between them. */
  datatype Piece = Plain(text: string) | Match(text: string)

  function Flatten(ps: seq<Piece>): string {
    if ps == [] then "" else ps[0].text + Flatten(ps[1..])
  }

  /** The distinct matches in the order of their first occurrence. */
  function Keys(ps: seq<Piece>): seq<string> {
    if ps == [] then []
    else
      var earlier, last := Keys(ps[..|ps| - 1]), ps[|ps| - 1];
      if last.Match? && last.text !in earlier then earlier + [last.text] else earlier
  }

  function Marker(i: nat): string {
    "@" + Decimal(i)
  }

  /** Replace the keys from number `i` on by their markers, one key after the other. */
  function ReplaceKeys(s: string, keys: seq<string>, i: nat): string
    requires forall k | k in keys :: k != ""
    decreases |keys| - i
  {
    if i >= |keys| then s
    else
      assert keys[i] in keys;
      ReplaceKeys(Replace(s, keys[i], Marker(i)), keys, i + 1)
  }

  predicate MatchesNonempty(ps: seq<Piece>) {
    forall p | p in ps && p.Match? :: p.text != ""
  }

  datatype Error = UnsupportedInput

  /** Collect the distinct keys, replace each by its marker and parse it, then cut the checksum. */
  method ExtractKeysAndTemplate<K>(ps: seq<Piece>, parse: string -> Option<K>)
    returns (r: Result<(string, seq<K>), Error>)
    requires MatchesNonempty(ps)
    ensures r.Ok? <==> forall k | k in Keys(ps) :: parse(k).Some?
    ensures r.Ok? ==>
              && (forall k | k in Keys(ps) :: k != "")
              && r.value.0 == BeforeLast(ReplaceKeys(Flatten(ps), Keys(ps), 0), '#')
              && |r.value.1| == |Keys(ps)|
              && forall i | 0 <= i < |Keys(ps)| :: parse(Keys(ps)[i]) == Some(r.value.1[i])
    ensures r.Err? ==> r.error == UnsupportedInput
  {
    var descriptorTemplate := Flatten(ps);
    var pubkeysStr: seq<string> := [];
    for n := 0 to |ps|
      invariant pubkeysStr == Keys(ps[..n])
    {
      assert ps[..n + 1][..n] == ps[..n];
      if ps[n].Match? && ps[n].text !in pubkeysStr {
        pubkeysStr := pubkeysStr + [ps[n].text];
      }
    }
    assert ps[..|ps|] == ps;
    KeysAreMatches(ps);
    assert forall k | k in Keys(ps) :: Match(k) in ps && k != "";
    var pubkeys: seq<K> := [];
    for i := 0 to |pubkeysStr|
      invariant ReplaceKeys(descriptorTemplate, pubkeysStr, i) == ReplaceKeys(Flatten(ps), pubkeysStr, 0)
      invariant |pubkeys| == i && forall j | 0 <= j < i :: parse(pubkeysStr[j]) == Some(pubkeys[j])
    {
      assert pubkeysStr[i] in Keys(ps) && Match(pubkeysStr[i]) in ps;
      descriptorTemplate := Replace(descriptorTemplate, pubkeysStr[i], Marker(i));
      var pubkey := parse(pubkeysStr[i]);
      if pubkey.None? {
        return Err(UnsupportedInput);
      }
      pubkeys := pubkeys + [pubkey.value];
    }
    return Ok((BeforeLast(descriptorTemplate, '#'), pubkeys));
  }

  // ---------------------------------------------------------------- numbering

  lemma {:induction false} KeysAreMatches(ps: seq<Piece>)
    ensures forall k :: k in Keys(ps) <==> Match(k) in ps
    ensures forall i, j | 0 <= i < j < |Keys(ps)| :: Keys(ps)[i] != Keys(ps)[j]
  {
    if ps != [] {
      KeysAreMatches(ps[..|ps| - 1]);
      assert ps == ps[..|ps| - 1] + [ps[|ps| - 1]];
    }
  }

  function IndexOf(keys: seq<string>, k: string): (i: nat)
    requires k in keys
    ensures i < |keys| && keys[i] == k && k !in keys[..i]
  {
    if keys[0] == k then 0
    else
      assert keys == [keys[0]] + keys[1..];
      var i := IndexOf(keys[1..], k);
      assert keys[..i + 1] == [keys[0]] + keys[1..][..i];
      i + 1
  }

  predicate Covers(keys: seq<string>, ps: seq<Piece>) {
    forall p | p in ps && p.Match? :: p.text in keys
  }

  /** The key numbers of the matches, in the order of the text. */
  function Refs(ps: seq<Piece>, keys: seq<string>): seq<nat>
    requires Covers(keys, ps)
  {
    if ps == [] then []
    else
      var earlier := Refs(ps[..|ps| - 1], keys);
      var last := ps[|ps| - 1];
      if last.Match? then earlier + [IndexOf(keys, last.text)] else earlier
  }

  lemma {:induction false} IndexOfGrows(keys: seq<string>, more: seq<string>, k: string)
    requires k in keys && keys <= more
    ensures k in more && IndexOf(more, k) == IndexOf(keys, k)
  {}

  lemma {:induction false} RefsGrow(ps: seq<Piece>, keys: seq<string>, more: seq<string>)
    requires Covers(keys, ps) && keys <= more
    ensures Covers(more, ps) && Refs(ps, more) == Refs(ps, keys)
  {
    if ps != [] {
      var last := ps[|ps| - 1];
      RefsGrow(ps[..|ps| - 1], keys, more);
      if last.Match? { IndexOfGrows(keys, more, last.text); }
    }
  }

  /** Every number below one that occurs has occurred before it. */
  predicate InOrder(refs: seq<nat>) {
    forall q, j | 0 <= q < |refs| && 0 <= j < refs[q] :: j in refs[..q]
  }

  lemma {:induction false} NumbersAppearInOrder(ps: seq<Piece>)
    ensures Covers(Keys(ps), ps) && InOrder(Refs(ps, Keys(ps)))
    ensures forall j | 0 <= j < |Keys(ps)| :: j in Refs(ps, Keys(ps))
  {
    KeysAreMatches(ps);
    if ps != [] {
      var init, last := ps[..|ps| - 1], ps[|ps| - 1];
      NumbersAppearInOrder(init);
      RefsGrow(init, Keys(init), Keys(ps));
      var earlier, refs := Refs(init, Keys(ps)), Refs(ps, Keys(ps));
      if last.Match? {
        assert refs[..|earlier|] == earlier;
        assert forall q | 0 <= q <= |earlier| :: refs[..q] == earlier[..q];
        var j := IndexOf(Keys(ps), last.text);
        assert refs[|earlier|] == j;
      }
    }
  }

  // ---------------------------------------------------------------- what the template looks like

  /** The text with the markers of the first `n` keys in place. */
  function Render(ps: seq<Piece>, keys: seq<string>, n: nat): string
    requires Covers(keys, ps)
  {
    if ps == [] then "" else RenderPiece(ps[0], keys, n) + Render(ps[1..], keys, n)
  }

  function RenderPiece(p: Piece, keys: seq<string>, n: nat): string
    requires p.Match? ==> p.text in keys
  {
    if p.Match? && IndexOf(keys, p.text) < n then Marker(IndexOf(keys, p.text)) else p.text
  }

  lemma {:induction false} RenderNothing(ps: seq<Piece>, keys: seq<string>)
    requires Covers(keys, ps)
    ensures Render(ps, keys, 0) == Flatten(ps)
  {
    if ps != [] { RenderNothing(ps[1..], keys); }
  }

  /** Keys look like keys: nonempty, without `@` or `#`, and not starting with a digit. */
  predicate KeyOk(k: string) {
    k != "" && '@' !in k && '#' !in k && !IsDigit(k[0])
  }

  /** A key occurs in the policy only where it was matched. */
  predicate OnlyAtMatches(ps: seq<Piece>, keys: seq<string>) {
    ps != [] ==>
      && (forall k, o | k in keys && 0 <= o < |ps[0].text| && k <= ps[0].text[o..] + Flatten(ps[1..]) ::
            ps[0].Match? && o == 0 && k == ps[0].text)
      && OnlyAtMatches(ps[1..], keys)
  }

  /** No digit directly follows a match. */
  predicate DigitsApart(ps: seq<Piece>) {
    ps != [] ==>
      && (ps[0].Match? && Flatten(ps[1..]) != "" ==> !IsDigit(Flatten(ps[1..])[0]))
      && DigitsApart(ps[1..])
  }

  predicate WellCut(ps: seq<Piece>, keys: seq<string>) {
    && Covers(keys, ps)
    && (forall k | k in keys :: KeyOk(k))
    && (forall p | p in ps && p.Plain? :: '@' !in p.text)
  }

  lemma MarkerBlocks(u: string, marked: string, k: string)
    requires '@' !in k && marked != "" && marked[0] == '@'
    ensures k <= u + marked ==> k <= u
  {
    var s := u + marked;
    assert s[|u|] == '@';
    assert |k| > |u| ==> k[|u|] in k;
  }

  /** An occurrence of a key in a half-rendered text does not touch a marker, so it is one in the policy. */
  lemma {:induction false} OccurrenceIsOriginal(u: string, ps: seq<Piece>, keys: seq<string>, n: nat, k: string)
    requires WellCut(ps, keys) && '@' !in k
    ensures k <= u + Render(ps, keys, n) ==> k <= u + Flatten(ps)
    decreases |ps|
  {
    if ps != [] {
      var head, rest := RenderPiece(ps[0], keys, n), Render(ps[1..], keys, n);
      if head != ps[0].text {
        MarkerBlocks(u, head + rest, k);
      } else {
        OccurrenceIsOriginal(u + head, ps[1..], keys, n, k);
        assert u + head + rest == u + (head + rest);
        assert u + head + Flatten(ps[1..]) == u + (head + Flatten(ps[1..]));
      }
    }
  }

  /** No key starts inside the rendering of a piece that is not a match of this key. */
  lemma NoKeyInside(ps: seq<Piece>, keys: seq<string>, n: nat, k: string, o: nat)
    requires WellCut(ps, keys) && OnlyAtMatches(ps, keys) && ps != [] && k in keys && ps[0] != Match(k)
    requires o < |RenderPiece(ps[0], keys, n)|
    ensures !(k <= RenderPiece(ps[0], keys, n)[o..] + Render(ps[1..], keys, n))
  {
    var head := RenderPiece(ps[0], keys, n);
    var s := head[o..] + Render(ps[1..], keys, n);
    assert KeyOk(k) && k[0] in k && s[0] == head[o];
    if head != ps[0].text {
      var d := Decimal(IndexOf(keys, ps[0].text));
      DecimalValue(IndexOf(keys, ps[0].text));
      assert o > 0 ==> head[o] == d[o - 1] && d[o - 1] in d;
    } else {
      OccurrenceIsOriginal(head[o..], ps[1..], keys, n, k);
    }
  }

  /** One pass of `replace` puts exactly the markers of one key in place. */
  lemma {:induction false} ReplaceOneKey(ps: seq<Piece>, keys: seq<string>, n: nat)
    requires WellCut(ps, keys) && OnlyAtMatches(ps, keys) && n < |keys|
    requires forall i, j | 0 <= i < j < |keys| :: keys[i] != keys[j]
    ensures keys[n] in keys && Replace(Render(ps, keys, n), keys[n], Marker(n)) == Render(ps, keys, n + 1)
  {
    var k := keys[n];
    assert k in keys && KeyOk(k);
    if ps != [] {
      var head, rest := RenderPiece(ps[0], keys, n), Render(ps[1..], keys, n);
      ReplaceOneKey(ps[1..], keys, n);
      if ps[0] == Match(k) {
        assert head == k && (k + rest)[|k|..] == rest;
      } else {
        forall o | 0 <= o < |head| ensures !(k <= (head + rest)[o..]) {
          assert (head + rest)[o..] == head[o..] + rest;
          NoKeyInside(ps, keys, n, k, o);
        }
        ReplaceSkips(head, rest, k, Marker(n));
        assert RenderPiece(ps[0], keys, n + 1) == head by {
          if ps[0].Match? { assert IndexOf(keys, ps[0].text) != n; }
        }
      }
    }
  }

  lemma {:induction false} ReplaceKeysRenders(ps: seq<Piece>, keys: seq<string>, n: nat)
    requires WellCut(ps, keys) && OnlyAtMatches(ps, keys) && n <= |keys|
    requires forall i, j | 0 <= i < j < |keys| :: keys[i] != keys[j]
    ensures ReplaceKeys(Render(ps, keys, n), keys, n) == Render(ps, keys, |keys|)
    decreases |keys| - n
  {
    if n < |keys| {
      ReplaceOneKey(ps, keys, n);
      ReplaceKeysRenders(ps, keys, n + 1);
    }
  }

  // ---------------------------------------------------------------- substituting back

  /** Length of the digits a text starts with. */
  function DigitRun(s: string): (n: nat)
    ensures n <= |s| && AllDigits(s[..n]) && (n < |s| ==> !IsDigit(s[n]))
  {
    if s == "" || !IsDigit(s[0]) then 0
    else
      var n := DigitRun(s[1..]) + 1;
      assert s[..n] == [s[0]] + s[1..][..n - 1];
      n
  }

  /** Put key i back for every `@i`. */
  function Substitute(s: string, keys: seq<string>): string
    decreases |s|
  {
    if s == "" then ""
    else if s[0] == '@' then
      var n := DigitRun(s[1..]);
      var digits := s[1..][..n];
      (if n > 0 && Value(digits) < |keys| then keys[Value(digits)] else s[..n + 1]) + Substitute(s[n + 1..], keys)
    else [s[0]] + Substitute(s[1..], keys)
  }

  lemma {:induction false} SubstituteCopies(t: string, rest: string, keys: seq<string>)
    requires '@' !in t
    ensures Substitute(t + rest, keys) == t + Substitute(rest, keys)
  {
    if t == "" {
      assert t + rest == rest;
    } else {
      assert (t + rest)[1..] == t[1..] + rest;
      SubstituteCopies(t[1..], rest, keys);
      assert [t[0]] + (t[1..] + Substitute(rest, keys)) == t + Substitute(rest, keys);
    }
  }

  lemma {:induction false} DigitRunOf(d: string, rest: string)
    requires AllDigits(d)
    ensures DigitRun(d + rest) == |d| + DigitRun(rest)
  {
    if d == "" {
      assert d + rest == rest;
    } else {
      assert d[0] in d && (d + rest)[1..] == d[1..] + rest;
      DigitRunOf(d[1..], rest);
    }
  }

  lemma SubstituteMarker(i: nat, rest: string, keys: seq<string>)
    requires i < |keys| && !StartsWithDigit(rest)
    ensures Substitute(Marker(i) + rest, keys) == keys[i] + Substitute(rest, keys)
  {
    var s, d := Marker(i) + rest, Decimal(i);
    DecimalValue(i);
    DigitRunOf(d, rest);
    assert s[1..] == d + rest;
    assert s[1..][..|d|] == d;
    assert s[|d| + 1..] == rest;
  }

  predicate StartsWithDigit(s: string) {
    s != "" && IsDigit(s[0])
  }

  lemma {:induction false} RenderStartsLikeFlatten(ps: seq<Piece>, keys: seq<string>, n: nat)
    requires WellCut(ps, keys)
    ensures StartsWithDigit(Render(ps, keys, n)) <==> StartsWithDigit(Flatten(ps))
  {
    if ps != [] {
      assert ps[0].Match? ==> KeyOk(ps[0].text);
      if ps[0].text == "" {
        assert Flatten(ps) == Flatten(ps[1..]);
        RenderStartsLikeFlatten(ps[1..], keys, n);
        assert Render(ps, keys, n) == Render(ps[1..], keys, n);
      } else {
        assert Flatten(ps)[0] == ps[0].text[0];
      }
    }
  }

  lemma SubstituteStart(s: string, keys: seq<string>)
    requires !StartsWithDigit(s) && forall k | k in keys :: KeyOk(k)
    ensures !StartsWithDigit(Substitute(s, keys))
  {
    if s != "" && s[0] == '@' {
      var n := DigitRun(s[1..]);
      var digits := s[1..][..n];
      if n > 0 && Value(digits) < |keys| {
        assert keys[Value(digits)] in keys;
      }
    }
  }

  lemma CancelFront(a: string, b: string, c: string)
    ensures a + b == a + c <==> b == c
  {
    assert (a + b)[|a|..] == b && (a + c)[|a|..] == c;
  }

  /** What an `@` and the digits after it read as. */
  lemma SubstituteAt(s: string, keys: seq<string>) returns (m: nat, digits: string, tail: string)
    requires s != "" && s[0] == '@' && DigitRun(s[1..]) > 0 && forall k | k in keys :: KeyOk(k)
    ensures Substitute(s, keys) == (if m < |keys| then keys[m] else "@" + digits) + tail
    ensures !StartsWithDigit(tail)
  {
    var n := DigitRun(s[1..]);
    digits := s[1..][..n];
    m := Value(digits);
    assert s[..n + 1] == "@" + digits;
    SubstituteStart(s[n + 1..], keys);
    tail := Substitute(s[n + 1..], keys);
  }

  /** The marker of key i, followed by a digit, reads as some other number or as none. */
  lemma SubstituteGlued(i: nat, rest: string, keys: seq<string>) returns (m: nat, digits: string, tail: string)
    requires StartsWithDigit(rest) && forall k | k in keys :: KeyOk(k)
    ensures Substitute(Marker(i) + rest, keys) == (if m < |keys| then keys[m] else "@" + digits) + tail
    ensures !StartsWithDigit(tail)
  {
    DecimalValue(i);
    assert (Marker(i) + rest)[1..] == Decimal(i) + rest;
    DigitRunOf(Decimal(i), rest);
    m, digits, tail := SubstituteAt(Marker(i) + rest, keys);
  }

  /** No key other than the matched one starts where a match starts. */
  lemma NoOtherKeyHere(ps: seq<Piece>, keys: seq<string>, k: string, tail: string)
    requires OnlyAtMatches(ps, keys) && ps != [] && ps[0].text != "" && k in keys && k != ps[0].text
    ensures k + tail != Flatten(ps)
  {
    assert ps[0].text[0..] == ps[0].text;
    assert !(k <= Flatten(ps));
    assert k <= k + tail;
  }

  /** A digit right after a match is swallowed by its marker. */
  lemma GluedDigitSpoils(ps: seq<Piece>, keys: seq<string>)
    requires WellCut(ps, keys) && OnlyAtMatches(ps, keys)
    requires forall i, j | 0 <= i < j < |keys| :: keys[i] != keys[j]
    requires ps != [] && ps[0].Match? && StartsWithDigit(Flatten(ps[1..]))
    ensures Substitute(Render(ps, keys, |keys|), keys) != Flatten(ps)
  {
    var k, rest := ps[0].text, Render(ps[1..], keys, |keys|);
    assert KeyOk(k) && k[0] in k;
    RenderStartsLikeFlatten(ps[1..], keys, |keys|);
    var m, digits, tail := SubstituteGlued(IndexOf(keys, k), rest, keys);
    if m >= |keys| {
      assert ("@" + digits + tail)[0] == '@' && Flatten(ps)[0] == k[0];
    } else if keys[m] == k {
      CancelFront(k, tail, Flatten(ps[1..]));
    } else {
      NoOtherKeyHere(ps, keys, keys[m], tail);
    }
  }

  /** Putting the keys back inverts the rendering exactly when no digit directly follows a match. */
  lemma {:induction false} SubstituteInvertsRender(ps: seq<Piece>, keys: seq<string>)
    requires WellCut(ps, keys) && OnlyAtMatches(ps, keys)
    requires forall i, j | 0 <= i < j < |keys| :: keys[i] != keys[j]
    ensures Substitute(Render(ps, keys, |keys|), keys) == Flatten(ps) <==> DigitsApart(ps)
  {
    if ps != [] {
      var rest, after := Render(ps[1..], keys, |keys|), Flatten(ps[1..]);
      SubstituteInvertsRender(ps[1..], keys);
      RenderStartsLikeFlatten(ps[1..], keys, |keys|);
      CancelFront(ps[0].text, Substitute(rest, keys), after);
      if ps[0].Plain? {
        SubstituteCopies(ps[0].text, rest, keys);
      } else if StartsWithDigit(after) {
        GluedDigitSpoils(ps, keys);
      } else {
        SubstituteMarker(IndexOf(keys, ps[0].text), rest, keys);
      }
    }
  }

  // ---------------------------------------------------------------- the checksum

  predicate HasHash(ps: seq<Piece>) {
    exists p :: p in ps && '#' in p.text
  }

  /** The pieces before the last `#`. */
  function CutHash(ps: seq<Piece>): seq<Piece> {
    if ps == [] then []
    else if HasHash(ps[1..]) then [ps[0]] + CutHash(ps[1..])
    else if '#' in ps[0].text then [Plain(BeforeLast(ps[0].text, '#'))]
    else ps
  }

  lemma {:induction false} BeforeLastOfSum(x: string, y: string)
    ensures BeforeLast(x + y, '#') ==
            if '#' in y then x + BeforeLast(y, '#') else if '#' in x then BeforeLast(x, '#') else x + y
  {
    if y == "" {
      assert x + y == x;
    } else {
      var s := x + y;
      assert s[..|s| - 1] == x + y[..|y| - 1] && s[|s| - 1] == y[|y| - 1];
      assert y == y[..|y| - 1] + [y[|y| - 1]];
      assert '#' in s <==> '#' in x || '#' in y;
      BeforeLastOfSum(x, y[..|y| - 1]);
    }
  }

  lemma {:induction false} HashInRender(ps: seq<Piece>, keys: seq<string>, n: nat)
    requires WellCut(ps, keys)
    ensures '#' in Render(ps, keys, n) <==> HasHash(ps)
  {
    if ps != [] {
      HashInRender(ps[1..], keys, n);
      assert HasHash(ps) <==> '#' in ps[0].text || HasHash(ps[1..]);
      if ps[0].Match? {
        assert KeyOk(ps[0].text);
        DecimalValue(IndexOf(keys, ps[0].text));
      }
    }
  }

  lemma {:induction false} BeforeLastShrinks(s: string, c: char)
    ensures |BeforeLast(s, c)| <= |s| && BeforeLast(s, c) == s[..|BeforeLast(s, c)|]
  {
    if c in s && s[|s| - 1] != c { BeforeLastShrinks(s[..|s| - 1], c); }
  }

  /** Cutting the checksum off the text is cutting it off the pieces. */
  lemma {:induction false} CutHashRenders(ps: seq<Piece>, keys: seq<string>, n: nat)
    requires WellCut(ps, keys)
    ensures WellCut(CutHash(ps), keys) && Render(CutHash(ps), keys, n) == BeforeLast(Render(ps, keys, n), '#')
  {
    if ps != [] {
      var head, rest := RenderPiece(ps[0], keys, n), Render(ps[1..], keys, n);
      CutHashRenders(ps[1..], keys, n);
      HashInRender(ps[1..], keys, n);
      HashInRender(ps[..1], keys, n);
      assert ps[..1] == [ps[0]] && Render([ps[0]], keys, n) == head + "" == head;
      BeforeLastOfSum(head, rest);
      assert ps[0].Match? ==> KeyOk(ps[0].text);
      if HasHash(ps[1..]) {
        assert CutHash(ps)[1..] == CutHash(ps[1..]);
      } else if '#' in ps[0].text {
        var cut := BeforeLast(ps[0].text, '#');
        BeforeLastShrinks(ps[0].text, '#');
        assert Render([Plain(cut)], keys, n) == cut + "" == cut;
      } else {
        assert !HasHash(ps[..1]);
      }
    }
  }

  lemma {:induction false} CutHashFlattens(ps: seq<Piece>, keys: seq<string>)
    requires WellCut(ps, keys)
    ensures Flatten(CutHash(ps)) == BeforeLast(Flatten(ps), '#')
  {
    CutHashRenders(ps, keys, 0);
    RenderNothing(ps, keys);
    RenderNothing(CutHash(ps), keys);
  }

  lemma PrefixGrows(k: string, t: string, short: string, long: string)
    requires k <= t + short && short <= long
    ensures k <= t + long
  {}

  lemma {:induction false} CutHashKeepsOccurrences(ps: seq<Piece>, keys: seq<string>)
    requires WellCut(ps, keys) && OnlyAtMatches(ps, keys)
    ensures OnlyAtMatches(CutHash(ps), keys)
  {
    if ps != [] {
      CutHashKeepsOccurrences(ps[1..], keys);
      var head, cut := ps[0], CutHash(ps);
      if HasHash(ps[1..]) {
        CutHashFlattens(ps[1..], keys);
        BeforeLastShrinks(Flatten(ps[1..]), '#');
        assert cut[1..] == CutHash(ps[1..]) && cut[0] == head;
        forall k, o | k in keys && 0 <= o < |head.text| && k <= head.text[o..] + Flatten(cut[1..])
          ensures head.Match? && o == 0 && k == head.text
        {
          PrefixGrows(k, head.text[o..], Flatten(cut[1..]), Flatten(ps[1..]));
        }
      } else if '#' in head.text {
        assert head.Match? ==> KeyOk(head.text);
        CutTextKeepsOccurrences(ps, keys);
      }
    }
  }

  lemma CutTextKeepsOccurrences(ps: seq<Piece>, keys: seq<string>)
    requires OnlyAtMatches(ps, keys) && ps != [] && ps[0].Plain?
    ensures OnlyAtMatches([Plain(BeforeLast(ps[0].text, '#'))], keys)
  {
    var text, cut := ps[0].text, BeforeLast(ps[0].text, '#');
    BeforeLastShrinks(text, '#');
    assert [Plain(cut)][1..] == [];
    forall k, o | k in keys && 0 <= o < |cut| ensures !(k <= cut[o..] + "") {
      assert !(k <= text[o..] + Flatten(ps[1..]));
      assert cut[o..] + "" == cut[o..] <= text[o..] <= text[o..] + Flatten(ps[1..]);
    }
  }

  // ---------------------------------------------------------------- main results

  /** Everything the round trip needs to know about a policy and its matches. */
  predicate Faithful(ps: seq<Piece>) {
    WellCut(ps, Keys(ps)) && OnlyAtMatches(ps, Keys(ps))
  }

  function TemplateOf(ps: seq<Piece>): string
    requires forall k | k in Keys(ps) :: k != ""
  {
    BeforeLast(ReplaceKeys(Flatten(ps), Keys(ps), 0), '#')
  }

  /** The template is the policy before its checksum with every match replaced by its marker. */
  lemma TemplateIsRendering(ps: seq<Piece>)
    requires Faithful(ps)
    ensures WellCut(CutHash(ps), Keys(ps))
    ensures forall k | k in Keys(ps) :: k != ""
    ensures TemplateOf(ps) == Render(CutHash(ps), Keys(ps), |Keys(ps)|)
  {
    assert forall k | k in Keys(ps) :: KeyOk(k);
    KeysAreMatches(ps);
    RenderNothing(ps, Keys(ps));
    ReplaceKeysRenders(ps, Keys(ps), 0);
    CutHashRenders(ps, Keys(ps), |Keys(ps)|);
  }

  /** Extraction is invertible, putting the keys back gives the policy without its checksum, exactly
      when no digit directly follows a key before the checksum. */
  lemma ExtractionIsInvertible(ps: seq<Piece>)
    requires Faithful(ps)
    ensures forall k | k in Keys(ps) :: k != ""
    ensures Substitute(TemplateOf(ps), Keys(ps)) == BeforeLast(Flatten(ps), '#') <==> DigitsApart(CutHash(ps))
  {
    TemplateIsRendering(ps);
    KeysAreMatches(ps);
    CutHashFlattens(ps, Keys(ps));
    CutHashKeepsOccurrences(ps, Keys(ps));
    SubstituteInvertsRender(CutHash(ps), Keys(ps));
  }

  /** Then two policies with the same template and keys are the same but for the checksum. */
  lemma ExtractionIsInjective(ps: seq<Piece>, qs: seq<Piece>)
    requires Faithful(ps) && Faithful(qs) && DigitsApart(CutHash(ps)) && DigitsApart(CutHash(qs))
    requires Keys(ps) == Keys(qs) && (forall k | k in Keys(ps) :: k != "") && TemplateOf(ps) == TemplateOf(qs)
    ensures BeforeLast(Flatten(ps), '#') == BeforeLast(Flatten(qs), '#')
  {
    ExtractionIsInvertible(ps);
    ExtractionIsInvertible(qs);
  }

  lemma {:induction false} CutsAtLastHash(bs: seq<Piece>, t: string, u: string, rest: seq<Piece>)
    requires '#' !in u && !HasHash(rest)
    ensures CutHash(bs + [Plain(t + "#" + u)] + rest) == bs + [Plain(t)]
  {
    var p := Plain(t + "#" + u);
    var ps := bs + [p] + rest;
    assert '#' in p.text by { assert p.text[|t|] == '#'; }
    if bs == [] {
      assert ps[0] == p && ps[1..] == rest;
      BeforeLastCuts(t, '#', u);
    } else {
      assert ps[1..] == bs[1..] + [p] + rest;
      assert ps[1..][|bs| - 1] == p;
      CutsAtLastHash(bs[1..], t, u, rest);
    }
  }

  /** The template of a policy with a checksum is its body, all that precedes the last `#`, with every
      match replaced by its marker; putting the keys back gives the body exactly when no digit directly
      follows a key in it. */
  lemma BodyIsExtracted(bs: seq<Piece>, t: string, u: string, rest: seq<Piece>)
    requires '#' !in u && !HasHash(rest)
    requires Faithful(bs + [Plain(t + "#" + u)] + rest)
    ensures var ps, body := bs + [Plain(t + "#" + u)] + rest, bs + [Plain(t)];
            && Covers(Keys(ps), body) && (forall k | k in Keys(ps) :: k != "")
            && TemplateOf(ps) == Render(body, Keys(ps), |Keys(ps)|)
            && (Substitute(TemplateOf(ps), Keys(ps)) == Flatten(body) <==> DigitsApart(body))
  {
    var ps := bs + [Plain(t + "#" + u)] + rest;
    CutsAtLastHash(bs, t, u, rest);
    TemplateIsRendering(ps);
    CutHashFlattens(ps, Keys(ps));
    ExtractionIsInvertible(ps);
  }

  lemma {:induction false} NothingToCut(ps: seq<Piece>)
    requires !HasHash(ps)
    ensures CutHash(ps) == ps
  {}

  /** The template of a policy without checksum is the whole policy with every match replaced. */
  lemma PolicyIsExtracted(ps: seq<Piece>)
    requires Faithful(ps) && !HasHash(ps)
    ensures Covers(Keys(ps), ps) && (forall k | k in Keys(ps) :: k != "")
    ensures TemplateOf(ps) == Render(ps, Keys(ps), |Keys(ps)|)
    ensures Substitute(TemplateOf(ps), Keys(ps)) == Flatten(ps) <==> DigitsApart(ps)
  {
    NothingToCut(ps);
    TemplateIsRendering(ps);
    CutHashFlattens(ps, Keys(ps));
    ExtractionIsInvertible(ps);
  }
}
