/**
Key rotation: the succession of publishing keys a verifier builds from the genesis key
(packages/distribution/src/rotation.ts).

Signatures and the spelling of keys are foreign: they are predicates the verifier is given.
*/
module Rotations {
  import opened Prelude
  import opened Digests
  import opened Publisher

  datatype RotationHead = RotationHead(assetId: string, root: Hex)

  datatype KeyRotation = KeyRotation(
    epoch: int,
    fromPublicKey: string,
    toPublicKey: string,
    heads: seq<RotationHead>,
    reason: string)

  datatype SignedRotation = SignedRotation(rotation: KeyRotation, signature: string)

  /** Ed25519 and SPKI, uninterpreted. */
  datatype Crypto = Crypto(
    verifiesCommitment: SignedCommitment -> bool,
    verifiesRotation: SignedRotation -> bool,
    isCanonicalKey: string -> bool)

  datatype RotationFault =
    | NotCanonical
    | WrongEpoch(at: nat)
    | NotTheCurrentKey(at: nat)
    | Reinstated(at: nat)
    | BadSignature(at: nat)

  /** The keys in epoch order, if the succession holds. */
  function Keys(genesis: string, rotations: seq<SignedRotation>): (keys: seq<string>)
    ensures |keys| == |rotations| + 1
  {
    seq(|rotations| + 1, i requires 0 <= i <= |rotations| =>
      if i == 0 then genesis else rotations[i - 1].rotation.toPublicKey)
  }

  /** Rotation i is next in line, signed by the key it retires, and names a key never used before. */
  ghost predicate Succeeds(crypto: Crypto, genesis: string, rotations: seq<SignedRotation>, i: nat)
    requires i < |rotations|
  {
    var keys, rotation := Keys(genesis, rotations), rotations[i].rotation;
    && crypto.isCanonicalKey(rotation.fromPublicKey) && crypto.isCanonicalKey(rotation.toPublicKey)
    && rotation.epoch == i + 1
    && rotation.fromPublicKey == keys[i]
    && rotation.toPublicKey !in keys[..i + 1]
    && crypto.verifiesRotation(rotations[i])
  }

  ghost predicate Succession(crypto: Crypto, genesis: string, rotations: seq<SignedRotation>) {
    crypto.isCanonicalKey(genesis) && forall i :: 0 <= i < |rotations| ==> Succeeds(crypto, genesis, rotations, i)
  }

  /** `authorisedKeys`: the keys by epoch, or the first rotation that does not succeed. */
  method AuthorisedKeys(crypto: Crypto, genesis: string, rotations: seq<SignedRotation>)
    returns (r: Result<seq<string>, RotationFault>)
    ensures r.Ok? <==> Succession(crypto, genesis, rotations)
    ensures r.Ok? ==> r.value == Keys(genesis, rotations)
  {
    if !crypto.isCanonicalKey(genesis) {
      return Err(NotCanonical);
    }
    var keys := [genesis];
    ghost var all := Keys(genesis, rotations);
    var i := 0;
    while i < |rotations|
      invariant 0 <= i <= |rotations|
      invariant keys == all[..i + 1]
      invariant forall k :: 0 <= k < i ==> Succeeds(crypto, genesis, rotations, k)
    {
      var rotation := rotations[i].rotation;
      if !crypto.isCanonicalKey(rotation.fromPublicKey) || !crypto.isCanonicalKey(rotation.toPublicKey) {
        assert !Succeeds(crypto, genesis, rotations, i);
        return Err(NotCanonical);
      }
      if rotation.epoch != i + 1 {
        assert !Succeeds(crypto, genesis, rotations, i);
        return Err(WrongEpoch(i));
      }
      if rotation.fromPublicKey != keys[|keys| - 1] {
        assert !Succeeds(crypto, genesis, rotations, i);
        return Err(NotTheCurrentKey(i));
      }
      if rotation.toPublicKey in keys {
        assert !Succeeds(crypto, genesis, rotations, i);
        return Err(Reinstated(i));
      }
      if !crypto.verifiesRotation(rotations[i]) {
        assert !Succeeds(crypto, genesis, rotations, i);
        return Err(BadSignature(i));
      }
      keys := keys + [rotation.toPublicKey];
      i := i + 1;
    }
    return Ok(keys);
  }

  /** No key is ever in force twice, so a key has one epoch. */
  lemma KeysDistinct(crypto: Crypto, genesis: string, rotations: seq<SignedRotation>, i: nat, j: nat)
    requires Succession(crypto, genesis, rotations) && i < j <= |rotations|
    ensures Keys(genesis, rotations)[i] != Keys(genesis, rotations)[j]
  {
    assert Succeeds(crypto, genesis, rotations, j - 1);
    assert Keys(genesis, rotations)[i] in Keys(genesis, rotations)[..j];
  }

  /** A shorter log is a succession too: a verifier that has not seen the newest rotation still verifies. */
  lemma SuccessionPrefix(crypto: Crypto, genesis: string, rotations: seq<SignedRotation>, n: nat)
    requires Succession(crypto, genesis, rotations) && n <= |rotations|
    ensures Succession(crypto, genesis, rotations[..n])
    ensures Keys(genesis, rotations[..n]) == Keys(genesis, rotations)[..n + 1]
  {
    var shorter := rotations[..n];
    forall i | 0 <= i < n
      ensures Succeeds(crypto, genesis, shorter, i)
    {
      assert Succeeds(crypto, genesis, rotations, i);
      assert Keys(genesis, shorter)[..i + 1] == Keys(genesis, rotations)[..i + 1];
    }
  }

  /** The epoch a key signs at: its place in the succession. */
  function EpochOf(keys: seq<string>, key: string): (epoch: Option<nat>)
    ensures epoch.Some? ==> epoch.value < |keys| && keys[epoch.value] == key
    ensures epoch.None? ==> key !in keys
  {
    if keys == [] then None
    else if keys[|keys| - 1] == key then Some(|keys| - 1)
    else EpochOf(keys[..|keys| - 1], key)
  }

  /** `heads.find(...)`: the head a rotation names for an asset. */
  function HeadFor(heads: seq<RotationHead>, assetId: string): (head: Option<Hex>) {
    if heads == [] then None
    else if heads[0].assetId == assetId then Some(heads[0].root)
    else HeadFor(heads[1..], assetId)
  }

  /** It is the first one named, when the rotation names the asset more than once, and none when it does not. */
  lemma {:induction false} HeadIsFirst(heads: seq<RotationHead>, assetId: string, k: nat)
    requires k <= |heads| && forall i :: 0 <= i < k ==> heads[i].assetId != assetId
    requires k < |heads| ==> heads[k].assetId == assetId
    ensures HeadFor(heads, assetId) == if k == |heads| then None else Some(heads[k].root)
    decreases k
  {
    if k > 0 {
      HeadIsFirst(heads[1..], assetId, k - 1);
    }
  }
}
