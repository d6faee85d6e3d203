/**
The batch verifier of a signed chain: `verifySignedChain` of
packages/distribution/src/signing.ts.
*/
module SignedChains {
  import opened Prelude
  import opened Digests
  import opened Commitments
  import opened Chains
  import opened Publisher
  import opened Rotations

  datatype SignedFault =
    | EmptySignedChain
    | Structural(fault: Fault)
    | NoSuccession(error: RotationFault)
    | HeadNotInChain(rotation: nat)
    | UnauthorisedKey(at: nat)
    | RetiredKey(at: nat)
    | BelowRotation(at: nat)
    | NotSigned(at: nat)

  function LinksOf(chain: seq<SignedCommitment>): (links: seq<Commitment>)
    ensures |links| == |chain|
    ensures forall i :: 0 <= i < |chain| ==> links[i] == chain[i].commitment
  {
    seq(|chain|, i requires 0 <= i < |chain| => chain[i].commitment)
  }

  /** The head rotation r names for the chain's asset. */
  function HeadOf(rotations: seq<SignedRotation>, r: nat, assetId: string): Option<Hex>
    requires r < |rotations|
  {
    HeadFor(rotations[r].rotation.heads, assetId)
  }

  predicate Holds(chain: seq<SignedCommitment>, from: nat, to: nat, root: Hex)
    requires from <= to <= |chain|
  {
    exists k :: from <= k < to && chain[k].commitment.root == root
  }

  /**
  Link i comes after rotation r: the rotation names no head for the asset, or names one whose
  last place in the chain is before i.
  */
  ghost predicate AfterLast(chain: seq<SignedCommitment>, rotations: seq<SignedRotation>, i: nat, r: nat)
    requires i < |chain| && r < |rotations|
  {
    var head := HeadOf(rotations, r, chain[0].commitment.assetId);
    head.None? || (Holds(chain, 0, i, head.value) && !Holds(chain, i, |chain|, head.value))
  }

  /** Link i comes after rotation r, counting from the head's first place in the chain. */
  ghost predicate AfterFirst(chain: seq<SignedCommitment>, rotations: seq<SignedRotation>, i: nat, r: nat)
    requires i < |chain| && r < |rotations|
  {
    var head := HeadOf(rotations, r, chain[0].commitment.assetId);
    head.None? || Holds(chain, 0, i, head.value)
  }

  ghost predicate HeadsPresent(chain: seq<SignedCommitment>, rotations: seq<SignedRotation>)
    requires chain != []
  {
    forall r :: 0 <= r < |rotations| ==>
      var head := HeadOf(rotations, r, chain[0].commitment.assetId);
      head.Some? ==> Holds(chain, 0, |chain|, head.value)
  }

  /** Who signed link i: an authorised key, no older than the one before it, and truly. */
  ghost predicate Attributed(crypto: Crypto, keys: seq<string>, chain: seq<SignedCommitment>, i: nat)
    requires i < |chain|
  {
    && EpochOf(keys, chain[i].publicKey).Some?
    && crypto.verifiesCommitment(chain[i])
    && (i > 0 && EpochOf(keys, chain[i - 1].publicKey).Some? ==>
      EpochOf(keys, chain[i - 1].publicKey).value <= EpochOf(keys, chain[i].publicKey).value)
  }

  /** Link i is signed at rotation r's epoch or later. */
  ghost predicate AtLeast(keys: seq<string>, chain: seq<SignedCommitment>, i: nat, r: nat)
    requires i < |chain|
  {
    EpochOf(keys, chain[i].publicKey).Some? ==> EpochOf(keys, chain[i].publicKey).value >= r + 1
  }

  ghost predicate AllAttributed(crypto: Crypto, keys: seq<string>, chain: seq<SignedCommitment>, n: nat)
    requires n <= |chain|
  {
    forall i :: 0 <= i < n ==> Attributed(crypto, keys, chain, i)
  }

  /** No link after a rotation, the last place of its head decides which, is signed below it. */
  ghost predicate NoneRetired(keys: seq<string>, chain: seq<SignedCommitment>, rotations: seq<SignedRotation>, n: nat)
    requires n <= |chain|
  {
    forall i, r :: 0 <= i < n && 0 <= r < |rotations| && AfterLast(chain, rotations, i, r) ==> AtLeast(keys, chain, i, r)
  }

  /** What the batch verifier accepts. */
  ghost predicate SignedChainOk(crypto: Crypto, chain: seq<SignedCommitment>, genesis: string,
                                rotations: seq<SignedRotation>)
  {
    && chain != [] && Verifies(LinksOf(chain)) && Succession(crypto, genesis, rotations)
    && HeadsPresent(chain, rotations)
    && AllAttributed(crypto, Keys(genesis, rotations), chain, |chain|)
    && NoneRetired(Keys(genesis, rotations), chain, rotations, |chain|)
  }

  /** `rootIndex.get(root)`: the map is filled in order, so the last place of the root. */
  method LastPlace(chain: seq<SignedCommitment>, root: Hex) returns (at: Option<nat>)
    ensures at.Some? ==>
      && at.value < |chain| && chain[at.value].commitment.root == root
      && !Holds(chain, at.value + 1, |chain|, root)
    ensures at.None? ==> !Holds(chain, 0, |chain|, root)
  {
    at := None;
    var i := 0;
    while i < |chain|
      invariant 0 <= i <= |chain|
      invariant at.Some? ==>
        && at.value < i && chain[at.value].commitment.root == root
        && !Holds(chain, at.value + 1, i, root)
      invariant at.None? ==> !Holds(chain, 0, i, root)
    {
      if chain[i].commitment.root == root {
        at := Some(i);
      }
      i := i + 1;
    }
  }

  /** Where each rotation's epoch is required from says which links come after it. */
  ghost predicate Places(chain: seq<SignedCommitment>, rotations: seq<SignedRotation>, from: seq<nat>) {
    && |from| == |rotations|
    && forall i, r :: 0 <= i < |chain| && 0 <= r < |rotations| ==> (i >= from[r] <==> AfterLast(chain, rotations, i, r))
  }

  /** Where each rotation's epoch is required from, or the first rotation whose head is missing. */
  method RequiredFrom(chain: seq<SignedCommitment>, rotations: seq<SignedRotation>)
    returns (from: seq<nat>, missing: Option<nat>)
    requires chain != []
    ensures missing.None? <==> HeadsPresent(chain, rotations)
    ensures missing.None? ==> Places(chain, rotations, from)
  {
    from := [];
    var r := 0;
    var assetId := chain[0].commitment.assetId;
    while r < |rotations|
      invariant 0 <= r <= |rotations| && |from| == r
      invariant forall q :: 0 <= q < r ==>
        var head := HeadOf(rotations, q, assetId);
        head.Some? ==> Holds(chain, 0, |chain|, head.value)
      invariant forall i, q :: 0 <= i < |chain| && 0 <= q < r ==>
        (i >= from[q] <==> AfterLast(chain, rotations, i, q))
    {
      var head := HeadOf(rotations, r, assetId);
      if head.None? {
        from := from + [0];
      } else {
        var at := LastPlace(chain, head.value);
        if at.None? {
          return from, Some(r);
        }
        LastPlaceSplits(chain, rotations, r, at.value);
        from := from + [at.value + 1];
      }
      r := r + 1;
    }
    missing := None;
  }

  lemma LastPlaceSplits(chain: seq<SignedCommitment>, rotations: seq<SignedRotation>, r: nat, at: nat)
    requires chain != [] && r < |rotations| && at < |chain|
    requires HeadOf(rotations, r, chain[0].commitment.assetId) == Some(chain[at].commitment.root)
    requires !Holds(chain, at + 1, |chain|, chain[at].commitment.root)
    ensures Holds(chain, 0, |chain|, chain[at].commitment.root)
    ensures forall i :: 0 <= i < |chain| ==> (i >= at + 1 <==> AfterLast(chain, rotations, i, r))
  {
    forall i | 0 <= i < |chain|
      ensures i >= at + 1 <==> AfterLast(chain, rotations, i, r)
    {
      var root := chain[at].commitment.root;
      if i >= at + 1 {
        assert chain[at].commitment.root == root;
        assert Holds(chain, 0, i, root);
      } else {
        assert Holds(chain, i, |chain|, root);
      }
    }
  }

  /** Whether some rotation requires more of link i than the epoch it is signed at. */
  method BelowRequired(from: seq<nat>, i: nat, epoch: nat) returns (below: bool)
    ensures below <==> exists r :: 0 <= r < |from| && i >= from[r] && epoch < r + 1
  {
    var r := 0;
    while r < |from|
      invariant 0 <= r <= |from|
      invariant forall q :: 0 <= q < r ==> !(i >= from[q] && epoch < q + 1)
    {
      if i >= from[r] && epoch < r + 1 {
        return true;
      }
      r := r + 1;
    }
    return false;
  }

  /** The checks on one link, in the source's order, after links signed at `epoch` or before. */
  method CheckLink(crypto: Crypto, keys: seq<string>, chain: seq<SignedCommitment>, rotations: seq<SignedRotation>,
                   from: seq<nat>, i: nat, epoch: nat) returns (fault: Option<SignedFault>, signedAt: nat)
    requires i < |chain| && Places(chain, rotations, from)
    requires if i == 0 then epoch == 0 else EpochOf(keys, chain[i - 1].publicKey) == Some(epoch)
    ensures fault.None? ==> EpochOf(keys, chain[i].publicKey) == Some(signedAt)
    ensures fault.None? <==>
      && Attributed(crypto, keys, chain, i)
      && forall r :: 0 <= r < |rotations| && AfterLast(chain, rotations, i, r) ==> AtLeast(keys, chain, i, r)
  {
    hide AfterLast, EpochOf;
    var link := chain[i];
    var linkEpoch := EpochOf(keys, link.publicKey);
    if linkEpoch.None? {
      return Some(UnauthorisedKey(i)), 0;
    }
    signedAt := linkEpoch.value;
    if signedAt < epoch {
      return Some(RetiredKey(i)), signedAt;
    }
    var below := BelowRequired(from, i, signedAt);
    if below {
      ghost var r :| 0 <= r < |from| && i >= from[r] && signedAt < r + 1;
      assert AfterLast(chain, rotations, i, r) && !AtLeast(keys, chain, i, r);
      return Some(BelowRotation(i)), signedAt;
    }
    fault := if crypto.verifiesCommitment(link) then None else Some(NotSigned(i));
  }

  /** The pass over the links: the first that an old key, a retired key or nobody signed. */
  method CheckLinks(crypto: Crypto, keys: seq<string>, chain: seq<SignedCommitment>, rotations: seq<SignedRotation>,
                    from: seq<nat>) returns (fault: Option<SignedFault>)
    requires Places(chain, rotations, from)
    ensures fault.None? <==>
      AllAttributed(crypto, keys, chain, |chain|) && NoneRetired(keys, chain, rotations, |chain|)
  {
    hide AfterLast, AtLeast, Places;
    hide EpochOf;
    var epoch, i := 0, 0;
    while i < |chain|
      invariant 0 <= i <= |chain|
      invariant if i == 0 then epoch == 0 else EpochOf(keys, chain[i - 1].publicKey) == Some(epoch)
      invariant AllAttributed(crypto, keys, chain, i) && NoneRetired(keys, chain, rotations, i)
    {
      fault, epoch := CheckLink(crypto, keys, chain, rotations, from, i, epoch);
      if fault.Some? {
        return;
      }
      i := i + 1;
    }
    return None;
  }

  /** `verifySignedChain`: the first problem, or None. */
  method VerifySignedChain(crypto: Crypto, chain: seq<SignedCommitment>, genesis: string,
                           rotations: seq<SignedRotation>) returns (fault: Option<SignedFault>)
    ensures fault.None? <==> SignedChainOk(crypto, chain, genesis, rotations)
  {
    hide Verifies, Succession, HeadsPresent, Keys, AllAttributed, NoneRetired;
    if |chain| == 0 {
      return Some(EmptySignedChain);
    }
    var structural := VerifyChain(LinksOf(chain));
    if structural.Some? {
      return Some(Structural(structural.value));
    }
    var authorised := AuthorisedKeys(crypto, genesis, rotations);
    if authorised.Err? {
      return Some(NoSuccession(authorised.error));
    }
    var from, missing := RequiredFrom(chain, rotations);
    if missing.Some? {
      return Some(HeadNotInChain(missing.value));
    }
    fault := CheckLinks(crypto, authorised.value, chain, rotations, from);
  }

  // ---------------------------------------------------------------- what acceptance proves

  /** The epoch link i is signed at in an accepted chain. */
  function SignedAt(genesis: string, rotations: seq<SignedRotation>, chain: seq<SignedCommitment>, i: nat): Option<nat>
    requires i < |chain|
  {
    EpochOf(Keys(genesis, rotations), chain[i].publicKey)
  }

  /** Epochs never decrease along an accepted chain. */
  lemma {:induction false} EpochsNeverDecrease(crypto: Crypto, chain: seq<SignedCommitment>, genesis: string,
                                               rotations: seq<SignedRotation>, i: nat, j: nat)
    requires SignedChainOk(crypto, chain, genesis, rotations) && i <= j < |chain|
    ensures SignedAt(genesis, rotations, chain, i).Some? && SignedAt(genesis, rotations, chain, j).Some?
    ensures SignedAt(genesis, rotations, chain, i).value <= SignedAt(genesis, rotations, chain, j).value
    decreases j
  {
    hide Verifies, Succession, HeadsPresent, Keys, EpochOf;
    assert Attributed(crypto, Keys(genesis, rotations), chain, j);
    if i < j {
      EpochsNeverDecrease(crypto, chain, genesis, rotations, i, j - 1);
    }
  }

  /**
  The position a rotation names cannot be moved: no link that follows its head, wherever the
  presented chain puts the two, is signed below the rotation's epoch.
  */
  lemma NothingRetiredAfterHead(crypto: Crypto, chain: seq<SignedCommitment>, genesis: string,
                                rotations: seq<SignedRotation>, r: nat, at: nat, i: nat)
    requires SignedChainOk(crypto, chain, genesis, rotations)
    requires r < |rotations| && at < i < |chain|
    requires HeadOf(rotations, r, chain[0].commitment.assetId) == Some(chain[at].commitment.root)
    requires !Holds(chain, at + 1, |chain|, chain[at].commitment.root)
    ensures SignedAt(genesis, rotations, chain, i).Some?
    ensures SignedAt(genesis, rotations, chain, i).value >= r + 1
  {
    hide Verifies, Succession, HeadsPresent, Keys, EpochOf;
    LastPlaceSplits(chain, rotations, r, at);
    hide AfterLast;
    assert Attributed(crypto, Keys(genesis, rotations), chain, i);
    assert AtLeast(Keys(genesis, rotations), chain, i, r);
  }
}
