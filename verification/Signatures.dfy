/** Merging the signatures a device returns into the caller's transaction. */
module Signatures {
  import opened Wrappers
  import opened PsbtModel

  datatype Error = DeviceDidNotSign

  // ---------------------------------------------------------------- the merge

  function Later<T>(a: Option<T>, b: Option<T>): Option<T> {
    if b.Some? then b else a
  }

  /** Right-biased union of the signature fields; every other field stays. */
  function MergeInput(a: Input, b: Input): Input {
    a.(partialSigs := a.partialSigs + b.partialSigs,
       tapScriptSigs := a.tapScriptSigs + b.tapScriptSigs,
       tapKeySig := Later(a.tapKeySig, b.tapKeySig))
  }

  /** Inputs without a counterpart on the other side stay as they are or are dropped. */
  function Merge(a: seq<Input>, b: seq<Input>): seq<Input> {
    seq(|a|, i requires 0 <= i < |a| => if i < |b| then MergeInput(a[i], b[i]) else a[i])
  }

  method MergeSignatures(psbt: Psbt, signed: seq<Input>)
    modifies psbt
    ensures psbt.inputs == Merge(old(psbt.inputs), signed)
  {
    ghost var before := psbt.inputs;
    for i := 0 to |signed|
      invariant |psbt.inputs| == |before|
      invariant forall j | 0 <= j < |before| :: psbt.inputs[j] == if j < i then MergeInput(before[j], signed[j]) else before[j]
    {
      if i >= |psbt.inputs| {
        continue;
      }
      var input := psbt.inputs[i];
      input := input.(partialSigs := input.partialSigs + signed[i].partialSigs);
      input := input.(tapScriptSigs := input.tapScriptSigs + signed[i].tapScriptSigs);
      if signed[i].tapKeySig.Some? {
        input := input.(tapKeySig := signed[i].tapKeySig);
      }
      psbt.inputs := psbt.inputs[i := input];
    }
  }

  predicate SameOtherFields(a: Input, b: Input) {
    a.derivations == b.derivations && a.finalWitness == b.finalWitness && a.rest == b.rest
  }

  /** Nothing is lost, nothing is invented and nothing else is touched. */
  lemma MergeIsUnion(a: seq<Input>, b: seq<Input>, i: nat)
    requires i < |a| && i < |b|
    ensures var m := Merge(a, b)[i];
            && |Merge(a, b)| == |a| && SameOtherFields(m, a[i])
            && m.partialSigs.Keys == a[i].partialSigs.Keys + b[i].partialSigs.Keys
            && m.tapScriptSigs.Keys == a[i].tapScriptSigs.Keys + b[i].tapScriptSigs.Keys
            && (forall k | k in m.partialSigs :: m.partialSigs[k] ==
                  if k in b[i].partialSigs then b[i].partialSigs[k] else a[i].partialSigs[k])
            && (forall k | k in m.tapScriptSigs :: m.tapScriptSigs[k] ==
                  if k in b[i].tapScriptSigs then b[i].tapScriptSigs[k] else a[i].tapScriptSigs[k])
            && (m.tapKeySig == b[i].tapKeySig || (b[i].tapKeySig.None? && m.tapKeySig == a[i].tapKeySig))
  {}

  lemma MergeIsIdempotent(a: seq<Input>, b: seq<Input>)
    ensures Merge(Merge(a, b), b) == Merge(a, b) && Merge(a, a) == a
  {
    forall i | 0 <= i < |a| && i < |b| ensures MergeInput(MergeInput(a[i], b[i]), b[i]) == MergeInput(a[i], b[i]) {
      assert a[i].partialSigs + b[i].partialSigs + b[i].partialSigs == a[i].partialSigs + b[i].partialSigs;
      assert a[i].tapScriptSigs + b[i].tapScriptSigs + b[i].tapScriptSigs == a[i].tapScriptSigs + b[i].tapScriptSigs;
    }
    forall i | 0 <= i < |a| ensures MergeInput(a[i], a[i]) == a[i] {
      assert a[i].partialSigs + a[i].partialSigs == a[i].partialSigs;
      assert a[i].tapScriptSigs + a[i].tapScriptSigs == a[i].tapScriptSigs;
    }
  }

  lemma MergeInputAssociative(a: Input, b: Input, c: Input)
    ensures MergeInput(MergeInput(a, b), c) == MergeInput(a, MergeInput(b, c))
  {
    assert a.partialSigs + b.partialSigs + c.partialSigs == a.partialSigs + (b.partialSigs + c.partialSigs);
    assert a.tapScriptSigs + b.tapScriptSigs + c.tapScriptSigs == a.tapScriptSigs + (b.tapScriptSigs + c.tapScriptSigs);
  }

  /** Everything `c` carries is in `a` already. */
  predicate AddsNothing(a: Input, c: Input) {
    && (forall k | k in c.partialSigs :: k in a.partialSigs && a.partialSigs[k] == c.partialSigs[k])
    && (forall k | k in c.tapScriptSigs :: k in a.tapScriptSigs && a.tapScriptSigs[k] == c.tapScriptSigs[k])
    && (c.tapKeySig.Some? ==> a.tapKeySig == c.tapKeySig)
  }

  lemma NothingToMerge(a: Input, c: Input)
    ensures MergeInput(a, c) == a <==> AddsNothing(a, c)
  {
    var m := MergeInput(a, c);
    if AddsNothing(a, c) {
      assert m.partialSigs == a.partialSigs && m.tapScriptSigs == a.tapScriptSigs;
    }
    if m == a {
      assert forall k | k in c.partialSigs :: m.partialSigs[k] == c.partialSigs[k];
      assert forall k | k in c.tapScriptSigs :: m.tapScriptSigs[k] == c.tapScriptSigs[k];
    }
  }

  /** Merging two signed copies one after the other is merging their merge exactly when the second
      brings nothing new for the caller's inputs that the first copy does not have. */
  lemma MergeIsAssociative(a: seq<Input>, b: seq<Input>, c: seq<Input>)
    ensures Merge(Merge(a, b), c) == Merge(a, Merge(b, c)) <==>
            forall i | |b| <= i < |a| && i < |c| :: AddsNothing(a[i], c[i])
  {
    var l, r := Merge(Merge(a, b), c), Merge(a, Merge(b, c));
    forall i | 0 <= i < |a|
      ensures l[i] == r[i] <==> (|b| <= i < |c| ==> AddsNothing(a[i], c[i]))
    {
      if i < |b| && i < |c| { MergeInputAssociative(a[i], b[i], c[i]); }
      if |b| <= i < |c| { NothingToMerge(a[i], c[i]); }
    }
    if forall i | |b| <= i < |a| && i < |c| :: AddsNothing(a[i], c[i]) {
      assert forall i | 0 <= i < |a| :: l[i] == r[i];
    }
  }

  predicate Agree<K, V(==)>(a: map<K, V>, b: map<K, V>) {
    forall k | k in a && k in b :: a[k] == b[k]
  }

  predicate SignersAgree(a: Input, b: Input) {
    && Agree(a.partialSigs, b.partialSigs) && Agree(a.tapScriptSigs, b.tapScriptSigs)
    && (a.tapKeySig.Some? && b.tapKeySig.Some? ==> a.tapKeySig == b.tapKeySig)
  }

  /** The order of two signers does not matter exactly when, on each of the caller's inputs that both
      cover, they agree wherever both have signed. */
  lemma OrderIndependent(a: seq<Input>, b: seq<Input>, c: seq<Input>)
    ensures Merge(Merge(a, b), c) == Merge(Merge(a, c), b) <==>
            forall i | 0 <= i < |a| && i < |b| && i < |c| :: SignersAgree(b[i], c[i])
  {
    if forall i | 0 <= i < |a| && i < |b| && i < |c| :: SignersAgree(b[i], c[i]) {
      forall i | 0 <= i < |a| && i < |b| && i < |c|
        ensures MergeInput(MergeInput(a[i], b[i]), c[i]) == MergeInput(MergeInput(a[i], c[i]), b[i])
      {
        assert SignersAgree(b[i], c[i]);
        AgreeingUnion(a[i].partialSigs, b[i].partialSigs, c[i].partialSigs);
        AgreeingUnion(a[i].tapScriptSigs, b[i].tapScriptSigs, c[i].tapScriptSigs);
      }
      assert Merge(Merge(a, b), c) == Merge(Merge(a, c), b);
    }
    if Merge(Merge(a, b), c) == Merge(Merge(a, c), b) {
      forall i | 0 <= i < |a| && i < |b| && i < |c| ensures SignersAgree(b[i], c[i]) {
        var x, y := Merge(Merge(a, b), c)[i], Merge(Merge(a, c), b)[i];
        assert x == MergeInput(MergeInput(a[i], b[i]), c[i]);
        assert y == MergeInput(MergeInput(a[i], c[i]), b[i]);
        assert forall k | k in c[i].partialSigs :: x.partialSigs[k] == c[i].partialSigs[k];
        assert forall k | k in b[i].partialSigs :: y.partialSigs[k] == b[i].partialSigs[k];
        assert forall k | k in c[i].tapScriptSigs :: x.tapScriptSigs[k] == c[i].tapScriptSigs[k];
        assert forall k | k in b[i].tapScriptSigs :: y.tapScriptSigs[k] == b[i].tapScriptSigs[k];
      }
    }
  }

  lemma AgreeingUnion<K, V>(a: map<K, V>, b: map<K, V>, c: map<K, V>)
    requires Agree(b, c)
    ensures a + b + c == a + c + b
  {}

  // ---------------------------------------------------------------- Coldcard

  /** The copying loop of the Coldcard: every returned input must exist in the caller's transaction. */
  method ColdcardCopy(psbt: Psbt, returned: seq<Input>)
    requires |returned| <= |psbt.inputs|
    modifies psbt
    ensures psbt.inputs == Merge(old(psbt.inputs), returned)
  {
    ghost var before := psbt.inputs;
    for i := 0 to |returned|
      invariant |psbt.inputs| == |before|
      invariant forall j | 0 <= j < |before| :: psbt.inputs[j] == if j < i then MergeInput(before[j], returned[j]) else before[j]
    {
      psbt.inputs := psbt.inputs[i := psbt.inputs[i].(partialSigs := psbt.inputs[i].partialSigs + returned[i].partialSigs)];
      psbt.inputs := psbt.inputs[i := psbt.inputs[i].(tapScriptSigs := psbt.inputs[i].tapScriptSigs + returned[i].tapScriptSigs)];
      if returned[i].tapKeySig.Some? {
        psbt.inputs := psbt.inputs[i := psbt.inputs[i].(tapKeySig := returned[i].tapKeySig)];
      }
    }
  }

  // ---------------------------------------------------------------- Specter

  /** A key-path signature found only in the final witness counts as if it had been in its own field. */
  function WithWitnessSignature(input: Input): Input {
    if input.tapKeySig.None? && input.finalWitness.Some? && |input.finalWitness.value| > 0
    then input.(tapKeySig := input.finalWitness.value[0].signature)
    else input
  }

  predicate HasSignature(input: Input) {
    input.partialSigs != map[] || input.tapScriptSigs != map[] || WithWitnessSignature(input).tapKeySig.Some?
  }

  function Effective(returned: seq<Input>): seq<Input> {
    seq(|returned|, i requires 0 <= i < |returned| => WithWitnessSignature(returned[i]))
  }

  /** One iteration of the copying loop of the Specter.  The caller's input is looked up only where a
      signature is copied. */
  method SpecterCopyInput(psbt: Psbt, i: nat, returned: Input) returns (signed: bool)
    requires HasSignature(returned) ==> i < |psbt.inputs|
    modifies psbt
    ensures |psbt.inputs| == |old(psbt.inputs)|
    ensures forall j | 0 <= j < |psbt.inputs| ::
              psbt.inputs[j] == if j == i then MergeInput(old(psbt.inputs)[j], WithWitnessSignature(returned))
                                else old(psbt.inputs)[j]
    ensures signed <==> HasSignature(returned)
    ensures !signed ==> psbt.inputs == old(psbt.inputs)
  {
    signed := false;
    if returned.partialSigs != map[] {
      signed := true;
      psbt.inputs := psbt.inputs[i := psbt.inputs[i].(partialSigs := psbt.inputs[i].partialSigs + returned.partialSigs)];
    }
    if returned.tapScriptSigs != map[] {
      signed := true;
      psbt.inputs := psbt.inputs[i := psbt.inputs[i].(tapScriptSigs := psbt.inputs[i].tapScriptSigs + returned.tapScriptSigs)];
    }
    if returned.tapKeySig.Some? {
      signed := true;
      psbt.inputs := psbt.inputs[i := psbt.inputs[i].(tapKeySig := returned.tapKeySig)];
    } else if returned.finalWitness.Some? && |returned.finalWitness.value| > 0 {
      var sig := returned.finalWitness.value[0].signature;
      if sig.Some? {
        psbt.inputs := psbt.inputs[i := psbt.inputs[i].(tapKeySig := sig)];
        signed := true;
      }
    }
    if i < |psbt.inputs| {
      assert psbt.inputs[i].partialSigs == old(psbt.inputs)[i].partialSigs + returned.partialSigs;
      assert psbt.inputs[i].tapScriptSigs == old(psbt.inputs)[i].tapScriptSigs + returned.tapScriptSigs;
    }
  }

  /** What the merge takes from a returned input, field by field: the key-path signature is the one in
      its own field, else the one the first witness element encodes, else the caller's. */
  lemma SpecterTakes(a: Input, returned: Input)
    ensures var m := MergeInput(a, WithWitnessSignature(returned));
            var w := returned.finalWitness;
            var inWitness := w.Some? && |w.value| > 0 && w.value[0].signature.Some?;
            && SameOtherFields(m, a)
            && m.partialSigs == a.partialSigs + returned.partialSigs
            && m.tapScriptSigs == a.tapScriptSigs + returned.tapScriptSigs
            && m.tapKeySig == (if returned.tapKeySig.Some? then returned.tapKeySig
                               else if inWitness then w.value[0].signature else a.tapKeySig)
            && (HasSignature(returned) <==>
                  returned.partialSigs != map[] || returned.tapScriptSigs != map[] || returned.tapKeySig.Some? || inWitness)
  {}

  /** The copying loop of the Specter reports an error when it found no signature at all.  Inputs the
      caller does not have may be returned as long as they carry no signature. */
  method SpecterCopy(psbt: Psbt, returned: seq<Input>) returns (r: Result<(), Error>)
    requires forall i | |psbt.inputs| <= i < |returned| :: !HasSignature(returned[i])
    modifies psbt
    ensures psbt.inputs == Merge(old(psbt.inputs), Effective(returned))
    ensures r.Ok? <==> exists i :: 0 <= i < |returned| && HasSignature(returned[i])
    ensures r.Err? ==> r.error == DeviceDidNotSign && psbt.inputs == old(psbt.inputs)
  {
    ghost var before := psbt.inputs;
    var hasSigned := false;
    for i := 0 to |returned|
      invariant |psbt.inputs| == |before|
      invariant forall j | 0 <= j < |before| ::
                  psbt.inputs[j] == if j < i then MergeInput(before[j], WithWitnessSignature(returned[j])) else before[j]
      invariant hasSigned <==> exists j :: 0 <= j < i && HasSignature(returned[j])
      invariant !hasSigned ==> psbt.inputs == before
    {
      var signed := SpecterCopyInput(psbt, i, returned[i]);
      hasSigned := hasSigned || signed;
    }
    if !hasSigned {
      return Err(DeviceDidNotSign);
    }
    return Ok(());
  }

  // ---------------------------------------------------------------- Ledger

  datatype Yielded =
    | Partial(key: PublicKey, sig: Sig)
    | TapScript(xonly: Key, leaf: Option<LeafHash>, sig: Sig)
    | Other

  function AddYielded(input: Input, obj: Yielded): Input {
    match obj
    case Partial(key, sig) => input.(partialSigs := input.partialSigs[key := sig])
    case TapScript(key, Some(leaf), sig) => input.(tapScriptSigs := input.tapScriptSigs[(key, leaf) := sig])
    case TapScript(_, None, sig) => input.(tapKeySig := Some(sig))
    case Other => input
  }

  /** The signatures yielded for input `i`, gathered on an input that had none. */
  function Gathered(objs: seq<(nat, Yielded)>, i: nat): Input {
    if objs == [] then Input(map[], map[], map[], None, None, 0)
    else
      var (at, obj) := objs[|objs| - 1];
      var earlier := Gathered(objs[..|objs| - 1], i);
      if at == i then AddYielded(earlier, obj) else earlier
  }

  predicate InRange(objs: seq<(nat, Yielded)>, n: nat) {
    forall j | 0 <= j < |objs| :: objs[j].0 < n
  }

  function GatherAll(objs: seq<(nat, Yielded)>, n: nat): seq<Input> {
    seq(n, i requires 0 <= i < n => Gathered(objs, i))
  }

  lemma AddYieldedToMerge(a: Input, b: Input, obj: Yielded)
    ensures AddYielded(MergeInput(a, b), obj) == MergeInput(a, AddYielded(b, obj))
  {
    match obj
    case Partial(key, sig) => assert (a.partialSigs + b.partialSigs)[key := sig] == a.partialSigs + b.partialSigs[key := sig];
    case TapScript(key, leaf, sig) =>
      if leaf.Some? {
        var k := (key, leaf.value);
        assert (a.tapScriptSigs + b.tapScriptSigs)[k := sig] == a.tapScriptSigs + b.tapScriptSigs[k := sig];
      }
    case Other =>
  }

  function SigOf(obj: Yielded): Sig {
    if obj.Other? then 0 else obj.sig
  }

  /** Object `j` is the last that satisfies `f`. */
  ghost predicate IsLastWith(objs: seq<(nat, Yielded)>, f: ((nat, Yielded)) -> bool, j: int) {
    0 <= j < |objs| && f(objs[j]) && forall l | j < l < |objs| :: !f(objs[l])
  }

  /** The signature of the last object that satisfies `f`. */
  function LastSig(objs: seq<(nat, Yielded)>, f: ((nat, Yielded)) -> bool): (r: Option<Sig>)
    ensures r.None? <==> forall j | 0 <= j < |objs| :: !f(objs[j])
    ensures r.Some? ==> exists j :: IsLastWith(objs, f, j) && r == Some(SigOf(objs[j].1))
  {
    if objs == [] then None
    else
      var init, last := objs[..|objs| - 1], objs[|objs| - 1];
      if f(last) then
        assert IsLastWith(objs, f, |objs| - 1);
        Some(SigOf(last.1))
      else
        assert forall j :: IsLastWith(init, f, j) ==> IsLastWith(objs, f, j);
        LastSig(init, f)
  }

  predicate IsPartial(o: (nat, Yielded), i: nat, key: PublicKey) {
    o.0 == i && o.1.Partial? && o.1.key == key
  }

  predicate IsScript(o: (nat, Yielded), i: nat, k: (Key, LeafHash)) {
    o.0 == i && o.1.TapScript? && o.1.xonly == k.0 && o.1.leaf == Some(k.1)
  }

  predicate IsKeyPath(o: (nat, Yielded), i: nat) {
    o.0 == i && o.1.TapScript? && o.1.leaf.None?
  }

  function Get<K, V>(m: map<K, V>, k: K): Option<V> {
    if k in m then Some(m[k]) else None
  }

  lemma {:induction false} GatheredFields(objs: seq<(nat, Yielded)>, i: nat, key: PublicKey, k: (Key, LeafHash))
    ensures var g := Gathered(objs, i);
            && Get(g.partialSigs, key) == LastSig(objs, o => IsPartial(o, i, key))
            && Get(g.tapScriptSigs, k) == LastSig(objs, o => IsScript(o, i, k))
            && g.tapKeySig == LastSig(objs, o => IsKeyPath(o, i))
  {
    if objs != [] { GatheredFields(objs[..|objs| - 1], i, key, k); }
  }

  /** Of what a Ledger yields for input `i`, each signature is the last one yielded for its place, the
      caller's stays where none is yielded, and every other field and object changes nothing. */
  lemma LedgerKeepsLast(before: seq<Input>, objs: seq<(nat, Yielded)>, i: nat, key: PublicKey, k: (Key, LeafHash))
    requires i < |before|
    ensures var m := Merge(before, GatherAll(objs, |before|))[i];
            && SameOtherFields(m, before[i])
            && Get(m.partialSigs, key) == Later(Get(before[i].partialSigs, key), LastSig(objs, o => IsPartial(o, i, key)))
            && Get(m.tapScriptSigs, k) == Later(Get(before[i].tapScriptSigs, k), LastSig(objs, o => IsScript(o, i, k)))
            && m.tapKeySig == Later(before[i].tapKeySig, LastSig(objs, o => IsKeyPath(o, i)))
  {
    GatheredFields(objs, i, key, k);
  }

  /** The loop over what a Ledger yields merges the gathered signatures of everything before the
      first object whose input does not exist; an error is reported exactly if there is one, and what
      precedes it stays merged. */
  method LedgerCopy(psbt: Psbt, objs: seq<(nat, Yielded)>) returns (r: Result<(), Error>, ghost used: nat)
    modifies psbt
    ensures used <= |objs| && InRange(objs[..used], |old(psbt.inputs)|)
    ensures psbt.inputs == Merge(old(psbt.inputs), GatherAll(objs[..used], |old(psbt.inputs)|))
    ensures r == Ok(()) || r == Err(DeviceDidNotSign)
    ensures r.Ok? ==> used == |objs|
    ensures r.Err? ==> used < |objs| && objs[used].0 >= |old(psbt.inputs)|
  {
    ghost var before := psbt.inputs;
    ghost var n := |before|;
    used := 0;
    assert forall i | 0 <= i < n :: MergeInput(before[i], Gathered([], i)) == before[i] by {
      forall i | 0 <= i < n ensures MergeInput(before[i], Gathered([], i)) == before[i] {
        assert before[i].partialSigs + map[] == before[i].partialSigs;
        assert before[i].tapScriptSigs + map[] == before[i].tapScriptSigs;
      }
    }
    for j := 0 to |objs|
      invariant used == j && |psbt.inputs| == n
      invariant InRange(objs[..j], n)
      invariant forall i | 0 <= i < n :: psbt.inputs[i] == MergeInput(before[i], Gathered(objs[..j], i))
    {
      var (i, obj) := objs[j];
      if i >= |psbt.inputs| {
        return Err(DeviceDidNotSign), used;
      }
      AddYieldedToMerge(before[i], Gathered(objs[..j], i), obj);
      psbt.inputs := psbt.inputs[i := AddYielded(psbt.inputs[i], obj)];
      assert objs[..j + 1][..j] == objs[..j];
      used := j + 1;
    }
    assert objs[..|objs|] == objs;
    return Ok(()), used;
  }
}
