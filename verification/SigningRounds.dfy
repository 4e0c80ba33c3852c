/** Repeated rounds of filtering, signing and restoring with a device that signs, in every input,
    one of the keys of its fingerprint that it is shown. */
module SigningRounds {
  import opened Wrappers
  import opened PsbtModel
  import opened DerivationFilter

  /** What the device is shown of an input. */
  function View(input: Input): Input {
    KeepGreatest(HideSigned(input))
  }

  /** The keys of a fingerprint that have not signed yet. */
  function Unsigned(input: Input, fg: Fingerprint): set<Key> {
    set k | k in input.derivations && input.derivations[k].fingerprint == fg && k !in Signed(input)
  }

  predicate AddsSignature(fg: Fingerprint, shown: Input, after: Input, pk: PublicKey, sig: Sig) {
    && pk.inner in shown.derivations && shown.derivations[pk.inner].fingerprint == fg
    && after == shown.(partialSigs := shown.partialSigs[pk := sig])
  }

  ghost predicate SignsOne(fg: Fingerprint, shown: Input, after: Input) {
    if exists k :: k in shown.derivations && shown.derivations[k].fingerprint == fg
    then exists pk, sig :: AddsSignature(fg, shown, after, pk, sig)
    else after == shown
  }

  ghost predicate RoundOn(fg: Fingerprint, before: Input, after: Input) {
    exists signed :: SignsOne(fg, View(before), signed) && after == signed.(derivations := before.derivations)
  }

  ghost predicate Round(fg: Fingerprint, before: seq<Input>, after: seq<Input>) {
    |before| == |after| && forall i | 0 <= i < |before| :: RoundOn(fg, before[i], after[i])
  }

  ghost predicate SigningDevice(fg: Fingerprint, device: seq<Input> -> seq<Input>) {
    forall shown: seq<Input> :: SignsEach(fg, shown, device(shown))
  }

  ghost predicate SignsEach(fg: Fingerprint, shown: seq<Input>, after: seq<Input>) {
    |shown| == |after| && forall i | 0 <= i < |shown| :: SignsOne(fg, shown[i], after[i])
  }

  lemma RoundFromSigning(fg: Fingerprint, before: seq<Input>, shown: seq<Input>, signed: seq<Input>, after: seq<Input>)
    requires |before| == |shown| == |after| && forall i | 0 <= i < |before| :: shown[i] == View(before[i])
    requires SignsEach(fg, shown, signed)
    requires forall i | 0 <= i < |before| :: after[i] == signed[i].(derivations := before[i].derivations)
    ensures Round(fg, before, after)
  {}

  lemma SigningKeepsDerivations(fg: Fingerprint, shown: seq<Input>, signed: seq<Input>)
    requires SignsEach(fg, shown, signed)
    ensures OnlySignaturesChanged(shown, signed)
  {}

  /** One round as a client performs it. */
  method SignOneRound(psbt: Psbt, fg: Fingerprint, device: seq<Input> -> seq<Input>)
    requires SigningDevice(fg, device)
    modifies psbt
    ensures Round(fg, old(psbt.inputs), psbt.inputs)
  {
    ghost var before := psbt.inputs;
    var filter := new Bip32DerivationFilter(psbt);
    ghost var original := filter.original;
    filter.IgnoreSignedKeyDerivation();
    filter.IgnoreSameFgBip32Derivations();
    ghost var shown := psbt.inputs;
    var signed := device(psbt.inputs);
    assert SignsEach(fg, shown, signed);
    SigningKeepsDerivations(fg, shown, signed);
    var r := filter.SignPsbt(signed, None);
    RoundFromSigning(fg, before, shown, signed, psbt.inputs);
  }

  // ---------------------------------------------------------------- one round on one input

  /** The keys of the fingerprint that the device is shown are the unsigned ones with the greatest path. */
  lemma ShownKeys(input: Input, fg: Fingerprint, k: Key)
    ensures k in View(input).derivations && input.derivations[k].fingerprint == fg <==>
            k in Unsigned(input, fg) &&
            forall j | j in Unsigned(input, fg) :: !Less(input.derivations[k].path, input.derivations[j].path)
  {
    var d := HideSigned(input).derivations;
    assert forall j :: j in d && d[j].fingerprint == fg <==> j in Unsigned(input, fg);
  }

  lemma ShownUnlessAllSigned(input: Input, fg: Fingerprint)
    ensures Unsigned(input, fg) != {} <==>
            exists k :: k in View(input).derivations && View(input).derivations[k].fingerprint == fg
  {
    if Unsigned(input, fg) != {} {
      var g := GreatestExists(input.derivations, Unsigned(input, fg));
      ShownKeys(input, fg, g);
    } else if k :| k in View(input).derivations && View(input).derivations[k].fingerprint == fg {
      ShownKeys(input, fg, k);
    }
  }

  /** A round signs one key that had not signed, the one with the greatest path, and leaves
      everything else of the input as it was. */
  lemma RoundSignsOneKey(fg: Fingerprint, before: Input, after: Input) returns (pk: PublicKey, sig: Sig)
    requires RoundOn(fg, before, after) && Unsigned(before, fg) != {}
    ensures pk.inner in Unsigned(before, fg) && pk !in before.partialSigs
    ensures after == before.(partialSigs := before.partialSigs[pk := sig])
    ensures Signed(after) == Signed(before) + {pk.inner}
    ensures Unsigned(after, fg) == Unsigned(before, fg) - {pk.inner}
    ensures forall k | k in Unsigned(before, fg) :: !Less(before.derivations[pk.inner].path, before.derivations[k].path)
  {
    var signed :| SignsOne(fg, View(before), signed) && after == signed.(derivations := before.derivations);
    ShownUnlessAllSigned(before, fg);
    pk, sig :| AddsSignature(fg, View(before), signed, pk, sig);
    ShownKeys(before, fg, pk.inner);
    assert pk in after.partialSigs;
    forall k ensures k in Signed(after) <==> k in Signed(before) + {pk.inner} {
      if k in Signed(after) {
        var q :| q in after.partialSigs && q.inner == k;
      }
      if k in Signed(before) {
        var q :| q in before.partialSigs && q.inner == k;
        assert q in after.partialSigs;
      }
    }
  }

  lemma FinishedRoundChangesNothing(fg: Fingerprint, before: Input, after: Input)
    requires RoundOn(fg, before, after) && Unsigned(before, fg) == {}
    ensures after == before
  {
    ShownUnlessAllSigned(before, fg);
  }

  lemma RoundProgress(fg: Fingerprint, before: Input, after: Input)
    requires RoundOn(fg, before, after)
    ensures after.derivations == before.derivations && Signed(before) <= Signed(after)
    ensures |Unsigned(after, fg)| == if |Unsigned(before, fg)| == 0 then 0 else |Unsigned(before, fg)| - 1
  {
    if Unsigned(before, fg) == {} {
      FinishedRoundChangesNothing(fg, before, after);
    } else {
      var pk, sig := RoundSignsOneKey(fg, before, after);
    }
  }

  // ---------------------------------------------------------------- whole runs

  /** `trace[j]` is the transaction after `j` rounds. */
  ghost predicate Rounds(fg: Fingerprint, trace: seq<seq<Input>>) {
    |trace| > 0 && forall j | 0 < j < |trace| :: Round(fg, trace[j - 1], trace[j])
  }

  /** After n rounds each input is n unsigned keys further, and its derivations are intact. */
  lemma {:induction false} AfterRounds(fg: Fingerprint, trace: seq<seq<Input>>, n: nat, i: nat)
    requires Rounds(fg, trace) && n < |trace| && i < |trace[0]|
    ensures |trace[n]| == |trace[0]| && trace[n][i].derivations == trace[0][i].derivations
    ensures Signed(trace[0][i]) <= Signed(trace[n][i])
    ensures var u := |Unsigned(trace[0][i], fg)|; |Unsigned(trace[n][i], fg)| == if u <= n then 0 else u - n
  {
    if n > 0 {
      AfterRounds(fg, trace, n - 1, i);
      assert Round(fg, trace[n - 1], trace[n]);
      assert RoundOn(fg, trace[n - 1][i], trace[n][i]);
      RoundProgress(fg, trace[n - 1][i], trace[n][i]);
    }
  }

  ghost predicate AllSigned(inputs: seq<Input>, fg: Fingerprint) {
    forall i | 0 <= i < |inputs| :: Unsigned(inputs[i], fg) == {}
  }

  /** The fingerprint's keys have all signed after n rounds exactly when no input started with more
      than n unsigned ones: the number of rounds is the largest count, no more and no less. */
  lemma RoundsNeeded(fg: Fingerprint, trace: seq<seq<Input>>, n: nat)
    requires Rounds(fg, trace) && n < |trace|
    ensures AllSigned(trace[n], fg) <==> forall i | 0 <= i < |trace[0]| :: |Unsigned(trace[0][i], fg)| <= n
  {
    SameLength(fg, trace, n);
    forall i | 0 <= i < |trace[0]|
      ensures Unsigned(trace[n][i], fg) == {} <==> |Unsigned(trace[0][i], fg)| <= n
    {
      AfterRounds(fg, trace, n, i);
    }
  }

  lemma {:induction false} SameLength(fg: Fingerprint, trace: seq<seq<Input>>, n: nat)
    requires Rounds(fg, trace) && n < |trace|
    ensures |trace[n]| == |trace[0]|
  {
    if n > 0 {
      SameLength(fg, trace, n - 1);
      assert Round(fg, trace[n - 1], trace[n]);
    }
  }

  /** No key signs twice: whatever has signed by round m is not signed in a later round. */
  lemma NeverSignsTwice(fg: Fingerprint, trace: seq<seq<Input>>, m: nat, n: nat, i: nat, k: Key)
    requires Rounds(fg, trace) && m <= n && n + 1 < |trace| && i < |trace[0]|
    requires |trace[m]| == |trace[0]| && k in Signed(trace[m][i])
    ensures |trace[n]| == |trace[n + 1]| == |trace[0]|
    ensures forall pk: PublicKey | pk.inner == k ::
              (pk in trace[n + 1][i].partialSigs <==> pk in trace[n][i].partialSigs) &&
              (pk in trace[n][i].partialSigs ==> trace[n + 1][i].partialSigs[pk] == trace[n][i].partialSigs[pk])
  {
    SameLength(fg, trace, n);
    SameLength(fg, trace, n + 1);
    AfterRounds(fg, trace[m..], n - m, i) by {
      forall j | 0 < j < |trace[m..]| ensures Round(fg, trace[m..][j - 1], trace[m..][j]) {
        assert Round(fg, trace[m + j - 1], trace[m + j]);
      }
    }
    assert k in Signed(trace[n][i]);
    assert Round(fg, trace[n + 1 - 1], trace[n + 1]);
    var before, after := trace[n][i], trace[n + 1][i];
    assert RoundOn(fg, before, after);
    if Unsigned(before, fg) == {} {
      FinishedRoundChangesNothing(fg, before, after);
    } else {
      var pk, sig := RoundSignsOneKey(fg, before, after);
      assert pk.inner != k;
    }
  }
}
