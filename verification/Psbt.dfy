/** The parts of a partially signed transaction that the signing helpers read and write. */
module PsbtModel {
  import opened Wrappers

  /** A secp256k1 point; its ordering plays no role. */
  type Key = nat

  type Fingerprint = nat

  /** Child numbers in their order: normal ones below 2^31, hardened ones from 2^31 on. */
  type Path = seq<nat>

  datatype KeySource = KeySource(fingerprint: Fingerprint, path: Path)

  type Derivations = map<Key, KeySource>

  /** A Bitcoin public key also remembers how it is serialized. */
  datatype PublicKey = PublicKey(inner: Key, compressed: bool)

  type Sig = nat
  type LeafHash = nat

  /** A witness element, with the taproot signature it encodes if it encodes one. */
  datatype WitnessItem = WitnessItem(bytes: seq<nat>, signature: Option<Sig>)

  /** `rest` stands for every other field of an input. */
  datatype Input = Input(
    derivations: Derivations,
    partialSigs: map<PublicKey, Sig>,
    tapScriptSigs: map<(Key, LeafHash), Sig>,
    tapKeySig: Option<Sig>,
    finalWitness: Option<seq<WitnessItem>>,
    rest: nat)

  class Psbt {
    var inputs: seq<Input>

    constructor (inputs: seq<Input>)
      ensures this.inputs == inputs
    {
      this.inputs := inputs;
    }
  }

  /** Lexicographic order on paths. */
  predicate Less(a: Path, b: Path) {
    b != [] && (a == [] || a[0] < b[0] || (a[0] == b[0] && Less(a[1..], b[1..])))
  }

  lemma {:induction false} LessIsTotal(a: Path, b: Path)
    ensures a == b || Less(a, b) || Less(b, a)
  {
    if a != [] && b != [] && a[0] == b[0] {
      LessIsTotal(a[1..], b[1..]);
      if a[1..] == b[1..] {
        assert a == [a[0]] + a[1..] == [b[0]] + b[1..] == b;
      }
    }
  }

  lemma {:induction false} LessIsStrict(a: Path, b: Path)
    ensures !(Less(a, b) && Less(b, a))
  {
    if a != [] && b != [] && a[0] == b[0] {
      LessIsStrict(a[1..], b[1..]);
    }
  }

  lemma {:induction false} LessIsTransitive(a: Path, b: Path, c: Path)
    requires Less(a, b) && Less(b, c)
    ensures Less(a, c)
  {
    if a != [] && a[0] == b[0] == c[0] {
      LessIsTransitive(a[1..], b[1..], c[1..]);
    }
  }

  /** Paths compare as in a dictionary: by the first place where they differ, and a proper prefix comes first. */
  lemma {:induction false} LessIsLexicographic(a: Path, b: Path)
    ensures Less(a, b) <==> a < b || exists k :: DifferFirstAt(a, b, k) && a[k] < b[k]
  {
    if a != [] && b != [] && a[0] == b[0] {
      LessIsLexicographic(a[1..], b[1..]);
      assert a == [a[0]] + a[1..] && b == [b[0]] + b[1..];
      if k :| DifferFirstAt(a, b, k) && a[k] < b[k] {
        assert DifferFirstAt(a[1..], b[1..], k - 1);
      }
      if k :| DifferFirstAt(a[1..], b[1..], k) && a[1..][k] < b[1..][k] {
        assert a[..k + 1] == [a[0]] + a[1..][..k] && b[..k + 1] == [b[0]] + b[1..][..k];
        assert DifferFirstAt(a, b, k + 1);
      }
    } else if a != [] && b != [] && a[0] != b[0] {
      assert DifferFirstAt(a, b, 0);
      assert forall k :: DifferFirstAt(a, b, k) && k > 0 ==> a[..k][0] == b[..k][0];
    }
  }

  predicate DifferFirstAt(a: Path, b: Path, k: int) {
    0 <= k < |a| && k < |b| && a[..k] == b[..k] && a[k] != b[k]
  }
}
