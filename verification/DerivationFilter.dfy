/** Hiding BIP32 derivations so that a device signs one key per input, and putting them back. */
module DerivationFilter {
  import opened Wrappers
  import opened PsbtModel

  // ---------------------------------------------------------------- the priority order

  /** The order `sort_by` is given: by fingerprint, and within a fingerprint the greater path first. */
  predicate Before(a: KeySource, b: KeySource) {
    a.fingerprint < b.fingerprint || (a.fingerprint == b.fingerprint && Less(b.path, a.path))
  }

  predicate Sorted(s: seq<KeySource>) {
    forall i, j | 0 <= i < j < |s| :: !Before(s[j], s[i])
  }

  lemma BeforeIsTransitive(a: KeySource, b: KeySource, c: KeySource)
    requires !Before(b, a) && !Before(c, b)
    ensures !Before(c, a)
  {
    if a.fingerprint == b.fingerprint == c.fingerprint {
      LessIsTotal(a.path, b.path);
      LessIsTotal(b.path, c.path);
      LessIsStrict(a.path, c.path);
      LessIsStrict(a.path, b.path);
      LessIsStrict(b.path, c.path);
      if Less(b.path, a.path) && Less(c.path, b.path) {
        LessIsTransitive(c.path, b.path, a.path);
      }
    }
  }

  function Insert(x: KeySource, s: seq<KeySource>): (r: seq<KeySource>)
    ensures multiset(r) == multiset(s) + multiset{x}
  {
    if s == [] then [x]
    else
      assert s == [s[0]] + s[1..];
      if Before(s[0], x) then [s[0]] + Insert(x, s[1..]) else [x] + s
  }

  lemma {:induction false} InsertSorts(x: KeySource, s: seq<KeySource>)
    requires Sorted(s)
    ensures Sorted(Insert(x, s))
  {
    if s != [] {
      var r := Insert(x, s);
      if Before(s[0], x) {
        InsertSorts(x, s[1..]);
        LessIsStrict(s[0].path, x.path);
        var t := Insert(x, s[1..]);
        forall j | 0 <= j < |t| ensures !Before(t[j], s[0]) {
          assert t[j] in multiset(t);
          assert t[j] == x || t[j] in s[1..];
        }
      } else {
        forall j | 0 <= j < |s| ensures !Before(s[j], x) {
          if j > 0 { BeforeIsTransitive(x, s[0], s[j]); }
        }
      }
    }
  }

  /** `sort_by`: equal elements are identical, so stability does not show. */
  function Sort(s: seq<KeySource>): (r: seq<KeySource>)
    ensures Sorted(r) && multiset(r) == multiset(s)
  {
    if s == [] then []
    else
      assert s == [s[0]] + s[1..];
      InsertSorts(s[0], Sort(s[1..]));
      Insert(s[0], Sort(s[1..]))
  }

  /** `iter().position`. */
  function Position(s: seq<KeySource>, x: KeySource): (p: nat)
    requires x in s
    ensures p < |s| && s[p] == x && x !in s[..p]
  {
    if s[0] == x then 0
    else
      assert s == [s[0]] + s[1..];
      var q := Position(s[1..], x);
      assert s[..q + 1] == [s[0]] + s[1..][..q];
      q + 1
  }

  /** Comparing first positions in the sorted order is comparing paths. */
  lemma PositionComparesPaths(s: seq<KeySource>, a: KeySource, b: KeySource)
    requires Sorted(s) && a in s && b in s && a.fingerprint == b.fingerprint && a.path != b.path
    ensures Position(s, a) < Position(s, b) <==> Less(b.path, a.path)
  {
    LessIsTotal(a.path, b.path);
    LessIsStrict(a.path, b.path);
  }

  lemma OneLoses(s: seq<KeySource>, a: KeySource, b: KeySource)
    requires Sorted(s) && a in s && b in s && a.fingerprint == b.fingerprint && a.path != b.path
    ensures if Position(s, a) < Position(s, b) then Less(b.path, a.path) && !Less(a.path, b.path) else Less(a.path, b.path)
  {
    PositionComparesPaths(s, a, b);
    LessIsTotal(a.path, b.path);
    LessIsStrict(a.path, b.path);
  }

  // ---------------------------------------------------------------- what stays visible

  /** The keys for which an input carries a signature. */
  function Signed(input: Input): set<Key> {
    set pk | pk in input.partialSigs :: pk.inner
  }

  /** No derivation of the input with the same fingerprint has a greater path. */
  predicate Greatest(d: Derivations, k: Key)
    requires k in d
  {
    forall j | j in d && d[j].fingerprint == d[k].fingerprint :: !Less(d[k].path, d[j].path)
  }

  function HideSigned(input: Input): Input {
    input.(derivations := input.derivations - Signed(input))
  }

  function KeepGreatest(input: Input): Input {
    var d := input.derivations;
    input.(derivations := map k | k in d && Greatest(d, k) :: d[k])
  }

  /** Some key of a nonempty set of one fingerprint's keys has the greatest path. */
  lemma {:induction false} GreatestExists(d: Derivations, ks: set<Key>) returns (g: Key)
    requires ks != {} && ks <= d.Keys
    ensures g in ks && forall k | k in ks :: !Less(d[g].path, d[k].path)
    decreases |ks|
  {
    var x :| x in ks;
    var others := ks - {x};
    if others == {} {
      g := x;
      assert ks == {x};
      LessIsStrict(d[x].path, d[x].path);
    } else {
      var h := GreatestExists(d, others);
      LessIsStrict(d[x].path, d[x].path);
      if Less(d[h].path, d[x].path) {
        g := x;
        forall k | k in ks ensures !Less(d[x].path, d[k].path) {
          if k != x && Less(d[x].path, d[k].path) {
            LessIsTransitive(d[h].path, d[x].path, d[k].path);
          }
        }
      } else {
        g := h;
        assert forall k | k in ks :: k == x || k in others;
      }
    }
  }

  lemma GreatestOfFingerprint(d: Derivations, k: Key) returns (g: Key)
    requires k in d
    ensures g in d && Greatest(d, g) && d[g].fingerprint == d[k].fingerprint && !Less(d[g].path, d[k].path)
  {
    var same := set j | j in d && d[j].fingerprint == d[k].fingerprint;
    assert k in same;
    g := GreatestExists(d, same);
  }

  /** No fingerprint disappears: what is hidden loses against something that stays. */
  lemma KeepGreatestKeepsFingerprints(input: Input, k: Key)
    requires k in input.derivations
    ensures var d, kept := input.derivations, KeepGreatest(input).derivations;
            exists g :: g in kept && kept[g].fingerprint == d[k].fingerprint && !Less(kept[g].path, d[k].path)
  {
    var g := GreatestOfFingerprint(input.derivations, k);
    assert g in KeepGreatest(input).derivations;
  }

  /** One path is left per fingerprint. */
  lemma KeepGreatestKeepsOnePath(input: Input, j: Key, k: Key)
    requires j in KeepGreatest(input).derivations && k in KeepGreatest(input).derivations
    requires input.derivations[j].fingerprint == input.derivations[k].fingerprint
    ensures input.derivations[j].path == input.derivations[k].path
  {
    LessIsTotal(input.derivations[j].path, input.derivations[k].path);
  }

  /** A second call changes nothing. */
  lemma KeepGreatestIdempotent(input: Input)
    ensures KeepGreatest(KeepGreatest(input)) == KeepGreatest(input)
  {}

  /** No derivation of the input with the same fingerprint has a smaller path. */
  predicate Smallest(d: Derivations, k: Key)
    requires k in d
  {
    forall j | j in d && d[j].fingerprint == d[k].fingerprint :: !Less(d[j].path, d[k].path)
  }

  /** A key with the smallest path of its fingerprint stays exactly if there is no other path. */
  lemma SmallestStaysIff(input: Input, k: Key)
    requires k in input.derivations && Smallest(input.derivations, k)
    ensures k in KeepGreatest(input).derivations <==>
            forall j | j in input.derivations && input.derivations[j].fingerprint == input.derivations[k].fingerprint ::
              input.derivations[j].path == input.derivations[k].path
  {
    var d := input.derivations;
    forall j | j in d && d[j].fingerprint == d[k].fingerprint
      ensures Less(d[k].path, d[j].path) <==> d[j].path != d[k].path
    {
      LessIsTotal(d[k].path, d[j].path);
      LessIsStrict(d[k].path, d[j].path);
    }
  }

  /** Of `fg/0/0` and `fg/1/0` the second is kept, not the first. */
  lemma GreatestNotSmallest(input: Input, fg: Fingerprint, first: Key, second: Key)
    requires first != second
    requires input.derivations == map[first := KeySource(fg, [0, 0]), second := KeySource(fg, [1, 0])]
    ensures KeepGreatest(input).derivations == map[second := KeySource(fg, [1, 0])]
  {
    var d := input.derivations;
    assert d[first].path[1..] == [0] && Less(d[first].path, d[second].path);
    assert !Less(d[second].path, d[first].path) && !Less(d[second].path, d[second].path) by {
      LessIsStrict(d[first].path, d[second].path);
      LessIsStrict(d[second].path, d[second].path);
    }
    assert Greatest(d, second) && !Greatest(d, first);
  }

  // ---------------------------------------------------------------- the filter

  /** What is left and what was put aside make up the original, without overlap. */
  predicate Conserved(left: Derivations, aside: Derivations, original: Derivations) {
    left.Keys !! aside.Keys && left + aside == original
  }

  predicate OnlySignaturesChanged(before: seq<Input>, after: seq<Input>) {
    |before| == |after| && forall i | 0 <= i < |before| :: after[i].derivations == before[i].derivations
  }

  function ToSet(keys: seq<Key>): set<Key> {
    set k | k in keys
  }

  class Bip32DerivationFilter {
    const psbt: Psbt
    var ignored: seq<Derivations>
    ghost const original: seq<Derivations>

    ghost predicate Valid()
      reads this, psbt
    {
      && |ignored| == |psbt.inputs| == |original|
      && forall i | 0 <= i < |ignored| :: Conserved(psbt.inputs[i].derivations, ignored[i], original[i])
    }

    constructor (psbt: Psbt)
      ensures Valid() && this.psbt == psbt
      ensures original == seq(|psbt.inputs|, i requires 0 <= i < |psbt.inputs| reads psbt => psbt.inputs[i].derivations)
    {
      this.psbt := psbt;
      ignored := seq(|psbt.inputs|, _ => map[]);
      original := seq(|psbt.inputs|, i requires 0 <= i < |psbt.inputs| reads psbt => psbt.inputs[i].derivations);
    }

    /** Put the derivation of `key` aside if input `i` has one. */
    method Ignore(i: nat, key: Key)
      requires Valid() && i < |ignored|
      modifies this, psbt
      ensures Valid()
      ensures psbt.inputs == old(psbt.inputs)[i :=
                old(psbt.inputs[i]).(derivations := old(psbt.inputs[i]).derivations - {key})]
    {
      var input := psbt.inputs[i];
      if key in input.derivations {
        var derivation := input.derivations[key];
        psbt.inputs := psbt.inputs[i := input.(derivations := input.derivations - {key})];
        var aside: Derivations := ignored[i][key := derivation];
        ignored := ignored[i := aside];
        assert Conserved(psbt.inputs[i].derivations, ignored[i], original[i]);
      } else {
        assert input.derivations - {key} == input.derivations;
        assert psbt.inputs == psbt.inputs[i := input];
      }
    }

    method IgnoreAll(i: nat, keys: seq<Key>)
      requires Valid() && i < |ignored|
      modifies this, psbt
      ensures Valid()
      ensures psbt.inputs == old(psbt.inputs)[i :=
                old(psbt.inputs[i]).(derivations := old(psbt.inputs[i]).derivations - ToSet(keys))]
    {
      ghost var hidden: set<Key> := {};
      assert psbt.inputs[i].derivations - hidden == psbt.inputs[i].derivations;
      assert psbt.inputs[i := psbt.inputs[i]] == psbt.inputs;
      for n := 0 to |keys|
        invariant Valid() && |psbt.inputs| == |old(psbt.inputs)|
        invariant hidden == ToSet(keys[..n])
        invariant psbt.inputs == old(psbt.inputs)[i :=
                    old(psbt.inputs[i]).(derivations := old(psbt.inputs[i]).derivations - hidden)]
      {
        Ignore(i, keys[n]);
        assert old(psbt.inputs[i]).derivations - hidden - {keys[n]} == old(psbt.inputs[i]).derivations - (hidden + {keys[n]});
        hidden := hidden + {keys[n]};
        assert keys[..n + 1] == keys[..n] + [keys[n]];
      }
      assert keys[..|keys|] == keys;
      assert hidden == ToSet(keys);
    }

    /** Put aside the derivations of the keys that have already signed. */
    method IgnoreSignedKeyDerivation()
      requires Valid()
      modifies this, psbt
      ensures Valid() && |psbt.inputs| == old(|psbt.inputs|)
      ensures forall i | 0 <= i < |psbt.inputs| :: psbt.inputs[i] == HideSigned(old(psbt.inputs)[i])
    {
      ghost var before := psbt.inputs;
      for i := 0 to |psbt.inputs|
        invariant Valid() && |psbt.inputs| == |before|
        invariant forall j | 0 <= j < i :: psbt.inputs[j] == HideSigned(before[j])
        invariant forall j | i <= j < |before| :: psbt.inputs[j] == before[j]
      {
        ghost var input := before[i];
        var keys := psbt.inputs[i].partialSigs.Keys;
        ghost var hidden: set<Key> := {};
        while keys != {}
          invariant Valid() && |psbt.inputs| == |before|
          invariant keys <= input.partialSigs.Keys
          invariant hidden == set pk | pk in input.partialSigs && pk !in keys :: pk.inner
          invariant psbt.inputs[i] == input.(derivations := input.derivations - hidden)
          invariant forall j | 0 <= j < |before| && j != i :: psbt.inputs[j] == if j < i then HideSigned(before[j]) else before[j]
        {
          var key :| key in keys;
          Ignore(i, key.inner);
          keys := keys - {key};
          hidden := hidden + {key.inner};
        }
        assert hidden == Signed(input);
      }
    }

    /** The keys of one input that lose against a key of the same fingerprint, by first positions. */
    static method Losers(d: Derivations, priorityOrder: seq<KeySource>) returns (toRemove: seq<Key>)
      requires Sorted(priorityOrder) && forall k | k in d :: d[k] in priorityOrder
      ensures forall k :: k in toRemove <==> k in d && !Greatest(d, k)
    {
      toRemove := [];
      var keys1 := d.Keys;
      while keys1 != {}
        invariant keys1 <= d.Keys
        invariant forall k | k in toRemove :: k in d && !Greatest(d, k)
        invariant forall k | k in d && k !in keys1 && !Greatest(d, k) :: k in toRemove
      {
        var key1 :| key1 in keys1;
        var source1 := d[key1];
        var keys2 := d.Keys;
        while keys2 != {}
          invariant keys2 <= d.Keys
          invariant forall k | k in toRemove :: k in d && !Greatest(d, k)
          invariant forall k | k in d && k !in keys1 && !Greatest(d, k) :: k in toRemove
          invariant forall k | k in d && k !in keys2 && d[k].fingerprint == source1.fingerprint
                               && Less(source1.path, d[k].path) :: key1 in toRemove
        {
          var key2 :| key2 in keys2;
          var source2 := d[key2];
          if source1.fingerprint == source2.fingerprint && source1.path != source2.path {
            OneLoses(priorityOrder, source1, source2);
            if Position(priorityOrder, source1) < Position(priorityOrder, source2) {
              toRemove := toRemove + [key2];
            } else {
              toRemove := toRemove + [key1];
            }
          } else {
            LessIsStrict(source1.path, source2.path);
          }
          keys2 := keys2 - {key2};
        }
        keys1 := keys1 - {key1};
      }
    }

    /** All key sources of the transaction, as often as they occur. */
    method PriorityOrder() returns (order: seq<KeySource>)
      ensures Sorted(order)
      ensures forall i, k | 0 <= i < |psbt.inputs| && k in psbt.inputs[i].derivations ::
                psbt.inputs[i].derivations[k] in order
    {
      var sources: seq<KeySource> := [];
      for i := 0 to |psbt.inputs|
        invariant forall j, k | 0 <= j < i && k in psbt.inputs[j].derivations ::
                    psbt.inputs[j].derivations[k] in sources
      {
        var d := psbt.inputs[i].derivations;
        var keys := d.Keys;
        while keys != {}
          invariant keys <= d.Keys
          invariant forall j, k | 0 <= j < i && k in psbt.inputs[j].derivations ::
                      psbt.inputs[j].derivations[k] in sources
          invariant forall k | k in d && k !in keys :: d[k] in sources
        {
          var key :| key in keys;
          sources := sources + [d[key]];
          keys := keys - {key};
        }
      }
      order := Sort(sources);
      forall x | x in sources ensures x in order {
        assert x in multiset(sources);
      }
    }

    /** Of the derivations of one input that share a fingerprint, keep those with the greatest path. */
    method IgnoreSameFgBip32Derivations()
      requires Valid()
      modifies this, psbt
      ensures Valid() && |psbt.inputs| == old(|psbt.inputs|)
      ensures forall i | 0 <= i < |psbt.inputs| :: psbt.inputs[i] == KeepGreatest(old(psbt.inputs)[i])
    {
      ghost var before := psbt.inputs;
      var priorityOrder := PriorityOrder();
      for i := 0 to |psbt.inputs|
        invariant Valid() && |psbt.inputs| == |before|
        invariant forall j | 0 <= j < i :: psbt.inputs[j] == KeepGreatest(before[j])
        invariant forall j | i <= j < |before| :: psbt.inputs[j] == before[j]
      {
        var toRemove := Losers(psbt.inputs[i].derivations, priorityOrder);
        IgnoreAll(i, toRemove);
        assert KeepGreatest(before[i]).derivations == before[i].derivations - ToSet(toRemove);
      }
    }

    /** Let the device sign, then put back what was put aside.  `signed` is what the device made of the
        inputs it was shown; when it reports an error nothing is put back. */
    method SignPsbt(signed: seq<Input>, deviceError: Option<string>) returns (r: Result<(), string>)
      requires Valid() && |signed| <= |psbt.inputs|
      modifies this, psbt
      ensures r.Ok? <==> deviceError.None?
      ensures r.Err? ==> r.error == deviceError.value && psbt.inputs == signed
      ensures r.Ok? ==> |psbt.inputs| == |signed| && forall i | 0 <= i < |signed| ::
                psbt.inputs[i] == signed[i].(derivations := signed[i].derivations + old(ignored)[i])
      ensures r.Ok? && OnlySignaturesChanged(old(psbt.inputs), signed) ==>
                forall i | 0 <= i < |signed| :: psbt.inputs[i] == signed[i].(derivations := original[i])
      ensures r.Err? && OnlySignaturesChanged(old(psbt.inputs), signed) ==>
                forall i | 0 <= i < |signed| ::
                  psbt.inputs[i].derivations == original[i] <==> old(ignored)[i] == map[]
    {
      psbt.inputs := signed;
      if deviceError.Some? {
        forall i | 0 <= i < |signed| && OnlySignaturesChanged(old(psbt.inputs), signed)
          ensures psbt.inputs[i].derivations == original[i] <==> ignored[i] == map[]
        {
          var left := old(psbt.inputs)[i].derivations;
          assert Conserved(left, ignored[i], original[i]);
          if ignored[i] != map[] {
            var k :| k in ignored[i];
            assert k in original[i] && k !in left;
          }
        }
        return Err(deviceError.value);
      }
      for i := 0 to |psbt.inputs|
        invariant |psbt.inputs| == |signed| <= |ignored| == |old(ignored)|
        invariant forall j | 0 <= j < i ::
                    psbt.inputs[j] == signed[j].(derivations := signed[j].derivations + old(ignored)[j])
        invariant forall j | i <= j < |signed| :: psbt.inputs[j] == signed[j] && ignored[j] == old(ignored)[j]
      {
        var input := psbt.inputs[i];
        psbt.inputs := psbt.inputs[i := input.(derivations := input.derivations + ignored[i])];
        ignored := ignored[i := map[]];
      }
      return Ok(());
    }
  }
}
