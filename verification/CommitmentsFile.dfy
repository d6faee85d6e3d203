/**
The commitments file, verified one link at a time (packages/distribution/src/commitmentsFile.ts),
and its agreement with the batch verifier.

The incremental verifier remembers the rotation heads it still waits for and raises the epoch
it requires the moment one passes; the batch verifier indexes every root beforehand. The
first place of a head counts for the one, the last for the other.
*/
module CommitmentsFile {
  import opened Prelude
  import opened Digests
  import opened Commitments
  import opened Chains
  import opened Publisher
  import opened Rotations
  import opened SignedChains

  /** Where a file's sequences jump: the link after the jump, and the end and root of the link before it. */
  datatype ChainBreak = ChainBreak(
    link: nat,
    afterSequence: int,
    afterRoot: Hex,
    fromSequence: int,
    bound: bool)

  datatype Refusal =
    | Unauthorised(error: RotationFault)
    | NotAChain(at: nat)
    | AnotherAsset(at: nat)
    | UnknownKey(at: nat)
    | OlderKey(at: nat)
    | BelowRequired(at: nat)
    | NotSignedBy(at: nat)
    | NothingAccepted
    | HeadNeverSeen

  predicate IsRestart(chain: seq<SignedCommitment>, i: nat)
    requires i < |chain|
  {
    i > 0 && chain[i].commitment.previousRoot.Blank?
  }

  /** Every interval the links so far state, in file order. */
  function BreaksOf(chain: seq<SignedCommitment>): seq<ChainBreak> {
    if |chain| < 2 then []
    else
      var i := |chain| - 1;
      var link, previous := chain[i].commitment, chain[i - 1].commitment;
      BreaksOf(chain[..i]) +
      if IsRestart(chain, i) || link.resumesAfter.Some?
      then [ChainBreak(i, previous.toSequence, previous.root, link.fromSequence, !IsRestart(chain, i))]
      else []
  }

  // ---------------------------------------------------------------- what the verifier accepts

  /** The structural check on link i: pairwise, or as a genesis where the file restarts. */
  ghost predicate Follows(chain: seq<SignedCommitment>, i: nat, assetId: string)
    requires i < |chain|
  {
    var link := chain[i].commitment;
    if i == 0 then Verifies([link])
    else if link.previousRoot.Blank? then Verifies([link]) && link.assetId == assetId
    else Verifies([chain[i - 1].commitment, link])
  }

  /** Rotation r is in force once a file has passed its head, or at once if it names none. */
  ghost predicate Due(chain: seq<SignedCommitment>, rotations: seq<SignedRotation>, assetId: string, r: nat)
    requires r < |rotations|
  {
    var head := HeadOf(rotations, r, assetId);
    head.None? || Holds(chain, 0, |chain|, head.value)
  }

  /** One link more: what `accept` says yes to. */
  ghost predicate Acceptable(crypto: Crypto, genesis: string, rotations: seq<SignedRotation>, assetId: string,
                             chain: seq<SignedCommitment>, next: SignedCommitment)
  {
    var keys, longer := Keys(genesis, rotations), chain + [next];
    && Succession(crypto, genesis, rotations)
    && Follows(longer, |chain|, assetId)
    && Attributed(crypto, keys, longer, |chain|)
    && (forall r :: 0 <= r < |rotations| && Due(chain, rotations, assetId, r) ==> AtLeast(keys, longer, |chain|, r))
  }

  /** The epoch required after these links: the newest rotation in force among the first n. */
  ghost predicate RequiredIs(rotations: seq<SignedRotation>, n: nat, assetId: string,
                             chain: seq<SignedCommitment>, required: nat)
    requires n <= |rotations|
  {
    && (forall r :: 0 <= r < n && Due(chain, rotations, assetId, r) ==> required >= r + 1)
    && (required > 0 ==> required <= n && Due(chain, rotations, assetId, required - 1))
  }

  /** Rotation r awaits its head under the newest rotation that names the same one. */
  ghost predicate Awaits(rotations: seq<SignedRotation>, assetId: string, pending: map<Hex, nat>, r: nat)
    requires r < |rotations|
  {
    var head := HeadOf(rotations, r, assetId);
    head.Some? && head.value in pending && pending[head.value] >= r + 1
  }

  /** An awaited head is named by the rotation it is held for, which is not in force yet. */
  ghost predicate HeldFor(rotations: seq<SignedRotation>, n: nat, assetId: string,
                          chain: seq<SignedCommitment>, pending: map<Hex, nat>, head: Hex)
    requires n <= |rotations| && head in pending
  {
    && 0 < pending[head] <= n
    && HeadOf(rotations, pending[head] - 1, assetId) == Some(head)
    && !Due(chain, rotations, assetId, pending[head] - 1)
  }

  /** What the first n rotations require after these links, and which heads are still awaited. */
  ghost predicate Waiting(rotations: seq<SignedRotation>, n: nat, assetId: string,
                          chain: seq<SignedCommitment>, required: nat, pending: map<Hex, nat>)
    requires n <= |rotations|
  {
    && RequiredIs(rotations, n, assetId, chain, required)
    && (forall r :: 0 <= r < n && !Due(chain, rotations, assetId, r) ==> Awaits(rotations, assetId, pending, r))
    && (forall head :: head in pending ==> HeldFor(rotations, n, assetId, chain, pending, head))
  }

  lemma WaitingStarts(rotations: seq<SignedRotation>, assetId: string)
    ensures Waiting(rotations, 0, assetId, [], 0, map[])
  {
  }

  lemma WaitingForNext(rotations: seq<SignedRotation>, n: nat, assetId: string, required: nat, pending: map<Hex, nat>)
    requires n < |rotations| && Waiting(rotations, n, assetId, [], required, pending)
    ensures var head := HeadOf(rotations, n, assetId);
      if head.None? then Waiting(rotations, n + 1, assetId, [], n + 1, pending)
      else Waiting(rotations, n + 1, assetId, [], required, pending[head.value := n + 1])
  {
    DueAtOnce(rotations, assetId);
    hide HeadOf, Due;
    if HeadOf(rotations, n, assetId).Some? {
      WaitingForHead(rotations, n, assetId, required, pending);
    }
  }

  lemma WaitingForHead(rotations: seq<SignedRotation>, n: nat, assetId: string, required: nat, pending: map<Hex, nat>)
    requires n < |rotations| && Waiting(rotations, n, assetId, [], required, pending)
    requires HeadOf(rotations, n, assetId).Some?
    ensures Waiting(rotations, n + 1, assetId, [], required, pending[HeadOf(rotations, n, assetId).value := n + 1])
  {
    DueAtOnce(rotations, assetId);
    hide HeadOf, Due;
    var next := HeadOf(rotations, n, assetId).value;
    var longer := pending[next := n + 1];
    forall head | head in longer
      ensures HeldFor(rotations, n + 1, assetId, [], longer, head)
    {
      assert head == next || HeldFor(rotations, n, assetId, [], pending, head);
    }
    forall r | 0 <= r < n + 1 && !Due([], rotations, assetId, r)
      ensures Awaits(rotations, assetId, longer, r)
    {
      assert r == n || Awaits(rotations, assetId, pending, r);
    }
  }

  /** Before any link, only rotations that name no head are in force. */
  lemma DueAtOnce(rotations: seq<SignedRotation>, assetId: string)
    ensures forall r :: 0 <= r < |rotations| ==>
      (Due([], rotations, assetId, r) <==> HeadOf(rotations, r, assetId).None?)
  {
    hide HeadOf;
  }

  /** One link's root passes: a rotation awaiting it comes into force. */
  lemma HeadPasses(rotations: seq<SignedRotation>, assetId: string, chain: seq<SignedCommitment>,
                   signed: SignedCommitment, required: nat, pending: map<Hex, nat>)
    requires Waiting(rotations, |rotations|, assetId, chain, required, pending)
    ensures var root := signed.commitment.root;
      if root in pending
      then Waiting(rotations, |rotations|, assetId, chain + [signed],
                   if pending[root] > required then pending[root] else required, pending - {root})
      else Waiting(rotations, |rotations|, assetId, chain + [signed], required, pending)
  {
    forall r | 0 <= r < |rotations|
      ensures Due(chain + [signed], rotations, assetId, r)
         <==> Due(chain, rotations, assetId, r) || HeadOf(rotations, r, assetId) == Some(signed.commitment.root)
    {
      DueGrows(chain, signed, rotations, assetId, r);
    }
    hide Due, HeadOf;
    var root := signed.commitment.root;
    if root in pending {
      assert HeldFor(rotations, |rotations|, assetId, chain, pending, root);
    }
    forall head | head in pending && head != root
      ensures HeldFor(rotations, |rotations|, assetId, chain + [signed], pending - {root}, head)
    {
      assert HeldFor(rotations, |rotations|, assetId, chain, pending, head);
    }
    forall r | 0 <= r < |rotations| && !Due(chain + [signed], rotations, assetId, r)
      ensures Awaits(rotations, assetId, pending - {root}, r)
    {
      assert Awaits(rotations, assetId, pending, r);
    }
    AwaitedComeDue(rotations, assetId, chain, signed, required, pending);
  }

  lemma AwaitedComeDue(rotations: seq<SignedRotation>, assetId: string, chain: seq<SignedCommitment>,
                       signed: SignedCommitment, required: nat, pending: map<Hex, nat>)
    requires Waiting(rotations, |rotations|, assetId, chain, required, pending)
    requires forall r :: 0 <= r < |rotations| ==>
      (Due(chain + [signed], rotations, assetId, r)
       <==> Due(chain, rotations, assetId, r) || HeadOf(rotations, r, assetId) == Some(signed.commitment.root))
    ensures var root := signed.commitment.root;
      RequiredIs(rotations, |rotations|, assetId, chain + [signed],
                 if root in pending && pending[root] > required then pending[root] else required)
    ensures signed.commitment.root !in pending ==> pending - {signed.commitment.root} == pending
  {
    hide Due, HeadOf;
    var root := signed.commitment.root;
    if root in pending {
      assert HeldFor(rotations, |rotations|, assetId, chain, pending, root);
    }
    forall r | 0 <= r < |rotations| && Due(chain + [signed], rotations, assetId, r) && !Due(chain, rotations, assetId, r)
      ensures root in pending && pending[root] >= r + 1
    {
      assert Awaits(rotations, assetId, pending, r);
    }
  }

  /** The required epoch says in one number what every rotation in force asks. */
  lemma RequiredSpeaksForAll(rotations: seq<SignedRotation>, assetId: string, chain: seq<SignedCommitment>,
                             required: nat, pending: map<Hex, nat>,
                             keys: seq<string>, longer: seq<SignedCommitment>)
    requires Waiting(rotations, |rotations|, assetId, chain, required, pending)
    requires |chain| < |longer| && EpochOf(keys, longer[|chain|].publicKey).Some?
    ensures EpochOf(keys, longer[|chain|].publicKey).value >= required <==>
      forall r :: 0 <= r < |rotations| && Due(chain, rotations, assetId, r) ==> AtLeast(keys, longer, |chain|, r)
  {
    hide Due;
    if required > 0 {
      assert Due(chain, rotations, assetId, required - 1);
    }
  }

  /** Nothing is awaited exactly when every named head has passed. */
  lemma NothingAwaited(rotations: seq<SignedRotation>, assetId: string, chain: seq<SignedCommitment>,
                       required: nat, pending: map<Hex, nat>)
    requires Waiting(rotations, |rotations|, assetId, chain, required, pending)
    ensures pending == map[] <==> forall r :: 0 <= r < |rotations| ==> Due(chain, rotations, assetId, r)
  {
    hide Due;
    if pending != map[] {
      var head :| head in pending;
      assert HeldFor(rotations, |rotations|, assetId, chain, pending, head);
      assert !Due(chain, rotations, assetId, pending[head] - 1);
    } else {
      assert forall r :: 0 <= r < |rotations| && !Due(chain, rotations, assetId, r) ==>
        Awaits(rotations, assetId, pending, r);
    }
  }

  // ---------------------------------------------------------------- the verifier

  /** The asset a file is for: fixed already, or by this link. */
  function AssetFor(fixedTo: Option<string>, signed: SignedCommitment): string {
    if fixedTo.Some? then fixedTo.value else signed.commitment.assetId
  }

  class IncrementalChainVerifier {
    const crypto: Crypto
    const genesis: string
    const rotations: seq<SignedRotation>
    const authorised: Result<seq<string>, RotationFault>
    var breaks: seq<ChainBreak>
    var pendingHeads: map<Hex, nat>
    var requiredEpoch: nat
    var epoch: nat
    var previous: Option<Commitment>
    var count: nat
    var assetId: Option<string>
    /** The links accepted so far. */
    ghost var accepted: seq<SignedCommitment>

    ghost predicate Valid()
      reads this
    {
      && (authorised.Ok? <==> Succession(crypto, genesis, rotations))
      && (authorised.Ok? ==> authorised.value == Keys(genesis, rotations))
      && count == |accepted| && breaks == BreaksOf(accepted)
      && previous == (if accepted == [] then None else Some(accepted[|accepted| - 1].commitment))
      && (accepted == [] ==> epoch == 0)
      && (accepted != [] ==>
        && authorised.Ok? && assetId.Some?
        && EpochOf(Keys(genesis, rotations), accepted[|accepted| - 1].publicKey) == Some(epoch)
        && HeadFault(accepted[|accepted| - 1].commitment).None?)
      && (assetId.None? ==> pendingHeads == map[] && requiredEpoch == 0)
      && (assetId.Some? ==>
        Waiting(rotations, |rotations|, assetId.value, accepted, requiredEpoch, pendingHeads))
    }

    constructor (crypto: Crypto, genesis: string, rotations: seq<SignedRotation>)
      ensures Valid() && accepted == [] && assetId.None?
      ensures this.crypto == crypto && this.genesis == genesis && this.rotations == rotations
    {
      var keys := AuthorisedKeys(crypto, genesis, rotations);
      this.crypto := crypto;
      this.genesis := genesis;
      this.rotations := rotations;
      this.authorised := keys;
      breaks, pendingHeads, requiredEpoch, epoch, previous, count := [], map[], 0, 0, None, 0;
      assetId := None;
      accepted := [];
    }

    /** The first link fixes the asset, and with it the heads to wait for. */
    method FixAsset(asset: string)
      requires assetId.None? && pendingHeads == map[] && requiredEpoch == 0
      modifies this`assetId, this`pendingHeads, this`requiredEpoch
      ensures assetId == Some(asset)
      ensures Waiting(rotations, |rotations|, asset, [], requiredEpoch, pendingHeads)
    {
      hide *;
      var index := 0;
      WaitingStarts(rotations, asset);
      while index < |rotations|
        invariant 0 <= index <= |rotations|
        invariant Waiting(rotations, index, asset, [], requiredEpoch, pendingHeads)
      {
        WaitingForNext(rotations, index, asset, requiredEpoch, pendingHeads);
        var head := HeadOf(rotations, index, asset);
        if head.None? {
          requiredEpoch := index + 1;
        } else {
          pendingHeads := pendingHeads[head.value := index + 1];
        }
        index := index + 1;
      }
      assetId := Some(asset);
    }

    /** `accept`: None when the link may follow the ones taken so far. */
    method Accept(signed: SignedCommitment) returns (refusal: Option<Refusal>)
      requires Valid()
      modifies this
      ensures Valid()
      ensures refusal.Some? ==> accepted == old(accepted)
      ensures refusal.None? ==> accepted == old(accepted) + [signed] && assetId.Some?
      ensures old(assetId).Some? ==> assetId == old(assetId)
      ensures old(assetId).None? && assetId.Some? ==> assetId == Some(signed.commitment.assetId)
      ensures refusal.None? <==>
        Acceptable(crypto, genesis, rotations, AssetFor(old(assetId), signed), old(accepted), signed)
    {
      hide Waiting, Due, HeadOf, Succession, Keys, EpochOf, BreaksOf, Verifies, HeadFault, Follows, Attributed, AtLeast;
      if authorised.Err? {
        refusal := Some(Unauthorised(authorised.error));
      } else {
        refusal := CheckStructure(signed);
        if refusal.None? {
          if assetId.None? {
            FixAsset(signed.commitment.assetId);
          }
          refusal := CheckAttribution(signed);
          if refusal.None? {
            FollowsIsHead(accepted + [signed], count, assetId.value);
            HeadPasses(rotations, assetId.value, accepted, signed, requiredEpoch, pendingHeads);
            Record(signed);
          }
        }
      }
    }

    /** Key, epoch and signature, in the source's order. */
    method CheckAttribution(signed: SignedCommitment) returns (refusal: Option<Refusal>)
      requires authorised == Ok(Keys(genesis, rotations)) && count == |accepted| && assetId.Some?
      requires accepted == [] ==> epoch == 0
      requires accepted != [] ==>
        EpochOf(Keys(genesis, rotations), accepted[|accepted| - 1].publicKey) == Some(epoch)
      requires Waiting(rotations, |rotations|, assetId.value, accepted, requiredEpoch, pendingHeads)
      ensures refusal.None? ==> EpochOf(Keys(genesis, rotations), signed.publicKey).Some?
      ensures refusal.None? <==>
        && Attributed(crypto, Keys(genesis, rotations), accepted + [signed], |accepted|)
        && forall r :: 0 <= r < |rotations| && Due(accepted, rotations, assetId.value, r) ==>
          AtLeast(Keys(genesis, rotations), accepted + [signed], |accepted|, r)
    {
      hide Waiting, Due, AtLeast, EpochOf, Keys;
      var linkEpoch := EpochOf(authorised.value, signed.publicKey);
      if linkEpoch.None? {
        return Some(UnknownKey(count));
      }
      if linkEpoch.value < epoch {
        return Some(OlderKey(count));
      }
      RequiredSpeaksForAll(rotations, assetId.value, accepted, requiredEpoch, pendingHeads,
                           authorised.value, accepted + [signed]);
      if linkEpoch.value < requiredEpoch {
        return Some(BelowRequired(count));
      }
      if !crypto.verifiesCommitment(signed) {
        return Some(NotSignedBy(count));
      }
      return None;
    }

    /** The structural check, pairwise or as a genesis. */
    method CheckStructure(signed: SignedCommitment) returns (refusal: Option<Refusal>)
      requires Valid() && authorised.Ok?
      ensures refusal.None? <==>
        Follows(accepted + [signed], |accepted|, AssetFor(assetId, signed))
    {
      hide Waiting, Succession, Keys, EpochOf, BreaksOf, Verifies, HeadFault;
      var link := signed.commitment;
      var restart := previous.Some? && link.previousRoot.Blank?;
      var structural := VerifyChain(if previous.None? || restart then [link] else [previous.value, link]);
      if structural.None? && restart && link.assetId != assetId.value {
        return Some(AnotherAsset(count));
      }
      if structural.Some? {
        return Some(NotAChain(count));
      }
      return None;
    }

    /** Everything about an accepted link that later links are checked against. */
    method Record(signed: SignedCommitment)
      requires authorised.Ok? && EpochOf(authorised.value, signed.publicKey).Some?
      requires count == |accepted| && breaks == BreaksOf(accepted)
      requires previous == if accepted == [] then None else Some(accepted[|accepted| - 1].commitment)
      modifies this`breaks, this`epoch, this`previous, this`count, this`pendingHeads, this`requiredEpoch, this`accepted
      ensures accepted == old(accepted) + [signed]
      ensures count == |accepted| && breaks == BreaksOf(accepted)
      ensures previous == Some(signed.commitment)
      ensures Some(epoch) == EpochOf(authorised.value, signed.publicKey)
      ensures var root := signed.commitment.root;
        if root in old(pendingHeads) then
          && pendingHeads == old(pendingHeads) - {root}
          && requiredEpoch == (if old(pendingHeads)[root] > old(requiredEpoch)
                               then old(pendingHeads)[root] else old(requiredEpoch))
        else pendingHeads == old(pendingHeads) && requiredEpoch == old(requiredEpoch)
    {
      var link := signed.commitment;
      var restart := previous.Some? && link.previousRoot.Blank?;
      ghost var longer := accepted + [signed];
      assert longer[..|accepted|] == accepted;
      if previous.Some? && (restart || link.resumesAfter.Some?) {
        breaks := breaks + [ChainBreak(count, previous.value.toSequence, previous.value.root,
                                       link.fromSequence, !restart)];
      } else {
        ConcatUnit(breaks);
      }
      epoch := EpochOf(authorised.value, signed.publicKey).value;
      previous := Some(link);
      count := count + 1;
      accepted := longer;
      if link.root in pendingHeads {
        var activated := pendingHeads[link.root];
        pendingHeads := pendingHeads - {link.root};
        requiredEpoch := if activated > requiredEpoch then activated else requiredEpoch;
      }
    }

    /** The verdict over everything accepted: None when the chain verifies. */
    method Finish() returns (refusal: Option<Refusal>)
      requires Valid()
      ensures refusal.None? <==>
        && Succession(crypto, genesis, rotations) && accepted != []
        && (forall r :: 0 <= r < |rotations| ==> Due(accepted, rotations, assetId.value, r))
    {
      hide Waiting, Due, HeadOf, Succession, Keys, EpochOf, BreaksOf, HeadFault;
      if authorised.Err? {
        return Some(Unauthorised(authorised.error));
      }
      if count == 0 {
        return Some(NothingAccepted);
      }
      NothingAwaited(rotations, assetId.value, accepted, requiredEpoch, pendingHeads);
      if |pendingHeads| > 0 {
        return Some(HeadNeverSeen);
      }
      return None;
    }
  }

  lemma DueGrows(chain: seq<SignedCommitment>, signed: SignedCommitment, rotations: seq<SignedRotation>,
                 assetId: string, r: nat)
    requires r < |rotations|
    ensures Due(chain + [signed], rotations, assetId, r)
       <==> Due(chain, rotations, assetId, r) || HeadOf(rotations, r, assetId) == Some(signed.commitment.root)
  {
    var head := HeadOf(rotations, r, assetId);
    if head.Some? {
      HoldsAppend(chain, signed, head.value);
    }
  }

  lemma HoldsAppend(chain: seq<SignedCommitment>, signed: SignedCommitment, root: Hex)
    ensures Holds(chain + [signed], 0, |chain| + 1, root)
       <==> Holds(chain, 0, |chain|, root) || signed.commitment.root == root
  {
    var longer := chain + [signed];
    if Holds(chain, 0, |chain|, root) {
      var k :| 0 <= k < |chain| && chain[k].commitment.root == root;
      assert longer[k].commitment.root == root;
    }
    assert longer[|chain|] == signed;
  }

  /** A link accepted in any position also passes the checks on a chain's first link. */
  lemma FollowsIsHead(chain: seq<SignedCommitment>, i: nat, assetId: string)
    requires i < |chain| && Follows(chain, i, assetId)
    ensures HeadFault(chain[i].commitment).None?
  {
    var link := chain[i].commitment;
    if i == 0 || link.previousRoot.Blank? {
      assert FaultAt([link], 0).None?;
    } else {
      assert FaultAt([chain[i - 1].commitment, link], 1).None?;
    }
  }

  // ---------------------------------------------------------------- a whole file

  /** What verifying a whole file, link by link and then finishing, says yes to. */
  ghost predicate FileOk(crypto: Crypto, chain: seq<SignedCommitment>, genesis: string,
                         rotations: seq<SignedRotation>)
  {
    var keys := Keys(genesis, rotations);
    && chain != [] && Succession(crypto, genesis, rotations)
    && HeadsPresent(chain, rotations)
    && (forall i :: 0 <= i < |chain| ==>
      && Follows(chain, i, chain[0].commitment.assetId)
      && Attributed(crypto, keys, chain, i))
    && (forall i, r :: 0 <= i < |chain| && 0 <= r < |rotations| && AfterFirst(chain, rotations, i, r) ==>
      AtLeast(keys, chain, i, r))
  }

  /** The first n links are each acceptable after the ones before. */
  ghost predicate AcceptedTo(crypto: Crypto, chain: seq<SignedCommitment>, genesis: string,
                             rotations: seq<SignedRotation>, n: nat)
    requires n <= |chain| && chain != []
  {
    forall i :: 0 <= i < n ==>
      Acceptable(crypto, genesis, rotations, chain[0].commitment.assetId, chain[..i], chain[i])
  }

  lemma AcceptableInChain(crypto: Crypto, chain: seq<SignedCommitment>, genesis: string,
                          rotations: seq<SignedRotation>, i: nat)
    requires i < |chain|
    ensures Acceptable(crypto, genesis, rotations, chain[0].commitment.assetId, chain[..i], chain[i]) <==>
      && Succession(crypto, genesis, rotations)
      && Follows(chain, i, chain[0].commitment.assetId)
      && Attributed(crypto, Keys(genesis, rotations), chain, i)
      && (forall r :: 0 <= r < |rotations| && AfterFirst(chain, rotations, i, r) ==>
        AtLeast(Keys(genesis, rotations), chain, i, r))
  {
    var longer := chain[..i] + [chain[i]];
    var keys, asset := Keys(genesis, rotations), chain[0].commitment.assetId;
    assert longer[i] == chain[i] && (i > 0 ==> longer[i - 1] == chain[i - 1]);
    forall r | 0 <= r < |rotations|
      ensures Due(chain[..i], rotations, asset, r) <==> AfterFirst(chain, rotations, i, r)
      ensures AtLeast(keys, longer, i, r) <==> AtLeast(keys, chain, i, r)
    {
      var head := HeadOf(rotations, r, asset);
      if head.Some? {
        HoldsPrefix(chain, i, head.value);
      }
    }
    hide HeadOf, Due, AfterFirst, AtLeast, EpochOf, Keys, Verifies, Succession;
    assert Attributed(crypto, keys, longer, i) <==> Attributed(crypto, keys, chain, i);
    assert Follows(longer, i, asset) <==> Follows(chain, i, asset);
  }

  lemma HoldsPrefix(chain: seq<SignedCommitment>, i: nat, root: Hex)
    requires i <= |chain|
    ensures Holds(chain[..i], 0, i, root) <==> Holds(chain, 0, i, root)
  {
    if Holds(chain, 0, i, root) {
      var k :| 0 <= k < i && chain[k].commitment.root == root;
      assert chain[..i][k].commitment.root == root;
    }
  }

  lemma FileOkIsAccepted(crypto: Crypto, chain: seq<SignedCommitment>, genesis: string, rotations: seq<SignedRotation>)
    requires chain != []
    ensures FileOk(crypto, chain, genesis, rotations) <==>
      && AcceptedTo(crypto, chain, genesis, rotations, |chain|)
      && HeadsPresent(chain, rotations)
  {
    hide Acceptable, Succession, Follows, Attributed, AtLeast, AfterFirst, HeadsPresent, Keys;
    forall i | 0 <= i < |chain|
      ensures Acceptable(crypto, genesis, rotations, chain[0].commitment.assetId, chain[..i], chain[i]) <==>
        && Succession(crypto, genesis, rotations)
        && Follows(chain, i, chain[0].commitment.assetId)
        && Attributed(crypto, Keys(genesis, rotations), chain, i)
        && (forall r :: 0 <= r < |rotations| && AfterFirst(chain, rotations, i, r) ==>
          AtLeast(Keys(genesis, rotations), chain, i, r))
    {
      AcceptableInChain(crypto, chain, genesis, rotations, i);
    }
    var asset, keys := chain[0].commitment.assetId, Keys(genesis, rotations);
    if AcceptedTo(crypto, chain, genesis, rotations, |chain|) {
      assert Acceptable(crypto, genesis, rotations, asset, chain[..0], chain[0]);
      forall i | 0 <= i < |chain|
        ensures Follows(chain, i, asset) && Attributed(crypto, keys, chain, i)
      {
        assert Acceptable(crypto, genesis, rotations, asset, chain[..i], chain[i]);
      }
      forall i, r | 0 <= i < |chain| && 0 <= r < |rotations| && AfterFirst(chain, rotations, i, r)
        ensures AtLeast(keys, chain, i, r)
      {
        assert Acceptable(crypto, genesis, rotations, asset, chain[..i], chain[i]);
      }
    }
  }

  lemma HeadsPresentIsDue(chain: seq<SignedCommitment>, rotations: seq<SignedRotation>)
    requires chain != []
    ensures HeadsPresent(chain, rotations) <==>
      forall r :: 0 <= r < |rotations| ==> Due(chain, rotations, chain[0].commitment.assetId, r)
  {
    hide HeadOf, Holds;
    if HeadsPresent(chain, rotations) {
      forall r | 0 <= r < |rotations|
        ensures Due(chain, rotations, chain[0].commitment.assetId, r)
      {
        var head := HeadOf(rotations, r, chain[0].commitment.assetId);
        assert head.Some? ==> Holds(chain, 0, |chain|, head.value);
      }
    } else {
      var r :| 0 <= r < |rotations| &&
        var head := HeadOf(rotations, r, chain[0].commitment.assetId);
        head.Some? && !Holds(chain, 0, |chain|, head.value);
      assert !Due(chain, rotations, chain[0].commitment.assetId, r);
    }
  }

  /** The verdict on a file, and the intervals it states. */
  datatype FileVerdict = FileVerdict(
    ok: bool,
    count: nat,
    breaks: seq<ChainBreak>,
    refusal: Option<Refusal>)

  /** `verifyCommitmentsFile` over the file's lines: accept each, stop at the first refusal, finish. */
  method VerifyFile(crypto: Crypto, chain: seq<SignedCommitment>, genesis: string,
                    rotations: seq<SignedRotation>) returns (verdict: FileVerdict)
    ensures verdict.ok <==> FileOk(crypto, chain, genesis, rotations)
    ensures verdict.ok ==> verdict.count == |chain|
    ensures verdict.ok <==> verdict.refusal.None?
    ensures verdict.count <= |chain| && verdict.breaks == BreaksOf(chain[..verdict.count])
    ensures chain != [] ==> LongestAccepted(crypto, chain, genesis, rotations, verdict.count)
  {
    hide *;
    var verifier := new IncrementalChainVerifier(crypto, genesis, rotations);
    var i := 0;
    NoneAccepted(crypto, chain, genesis, rotations);
    while i < |chain|
      invariant 0 <= i <= |chain| && fresh(verifier) && verifier.Valid()
      invariant verifier.crypto == crypto && verifier.genesis == genesis && verifier.rotations == rotations
      invariant verifier.accepted == chain[..i]
      invariant i == 0 ==> verifier.assetId.None?
      invariant i > 0 ==> verifier.assetId == Some(chain[0].commitment.assetId)
      invariant chain != [] ==> AcceptedTo(crypto, chain, genesis, rotations, i)
    {
      AssetFixed(verifier.assetId, chain[i]);
      var refusal := verifier.Accept(chain[i]);
      AcceptedOneMore(crypto, chain, genesis, rotations, i);
      if refusal.Some? {
        FileOkIsAccepted(crypto, chain, genesis, rotations);
        NotAcceptedTo(crypto, chain, genesis, rotations, i);
        ReadOff(verifier);
        StopsHere(crypto, chain, genesis, rotations, i);
        return FileVerdict(false, verifier.count, verifier.breaks, refusal);
      }
      CutAfter(chain, i);
      i := i + 1;
    }
    assert chain[..i] == chain;
    var final := verifier.Finish();
    ReadOff(verifier);
    if chain != [] {
      FileOkIsAccepted(crypto, chain, genesis, rotations);
      HeadsPresentIsDue(chain, rotations);
      SuccessionAccepted(crypto, chain, genesis, rotations);
      StopsHere(crypto, chain, genesis, rotations, i);
    } else {
      EmptyFile(crypto, genesis, rotations);
    }
    return FileVerdict(final.None?, verifier.count, verifier.breaks, final);
  }

  /** The first n links are acceptable one after the other, and the link after them, if there is one, is not. */
  ghost predicate LongestAccepted(crypto: Crypto, chain: seq<SignedCommitment>, genesis: string,
                                  rotations: seq<SignedRotation>, n: nat)
    requires n <= |chain| && chain != []
  {
    && AcceptedTo(crypto, chain, genesis, rotations, n)
    && (n < |chain| ==>
      !Acceptable(crypto, genesis, rotations, chain[0].commitment.assetId, chain[..n], chain[n]))
  }

  lemma StopsHere(crypto: Crypto, chain: seq<SignedCommitment>, genesis: string,
                  rotations: seq<SignedRotation>, n: nat)
    requires n <= |chain| && chain != [] && AcceptedTo(crypto, chain, genesis, rotations, n)
    requires n < |chain| ==>
      !Acceptable(crypto, genesis, rotations, chain[0].commitment.assetId, chain[..n], chain[n])
    ensures LongestAccepted(crypto, chain, genesis, rotations, n)
  {
    hide AcceptedTo, Acceptable;
  }

  lemma AssetFixed(fixedTo: Option<string>, signed: SignedCommitment)
    ensures AssetFor(fixedTo, signed) == if fixedTo.Some? then fixedTo.value else signed.commitment.assetId
  {
  }

  lemma ReadOff(verifier: IncrementalChainVerifier)
    requires verifier.Valid()
    ensures verifier.count == |verifier.accepted| && verifier.breaks == BreaksOf(verifier.accepted)
  {
  }

  lemma NoneAccepted(crypto: Crypto, chain: seq<SignedCommitment>, genesis: string, rotations: seq<SignedRotation>)
    ensures chain != [] ==> AcceptedTo(crypto, chain, genesis, rotations, 0)
  {
  }

  lemma AcceptedOneMore(crypto: Crypto, chain: seq<SignedCommitment>, genesis: string,
                        rotations: seq<SignedRotation>, i: nat)
    requires i < |chain| && AcceptedTo(crypto, chain, genesis, rotations, i)
    ensures AcceptedTo(crypto, chain, genesis, rotations, i + 1) <==>
      Acceptable(crypto, genesis, rotations, chain[0].commitment.assetId, chain[..i], chain[i])
  {
    hide Acceptable;
  }

  lemma NotAcceptedTo(crypto: Crypto, chain: seq<SignedCommitment>, genesis: string,
                      rotations: seq<SignedRotation>, i: nat)
    requires i < |chain| && !AcceptedTo(crypto, chain, genesis, rotations, i + 1)
    ensures !AcceptedTo(crypto, chain, genesis, rotations, |chain|)
  {
    hide Acceptable;
  }

  lemma SuccessionAccepted(crypto: Crypto, chain: seq<SignedCommitment>, genesis: string,
                           rotations: seq<SignedRotation>)
    requires chain != [] && AcceptedTo(crypto, chain, genesis, rotations, |chain|)
    ensures Succession(crypto, genesis, rotations)
  {
    hide Succession;
    assert Acceptable(crypto, genesis, rotations, chain[0].commitment.assetId, chain[..0], chain[0]);
  }

  lemma EmptyFile(crypto: Crypto, genesis: string, rotations: seq<SignedRotation>)
    ensures !FileOk(crypto, [], genesis, rotations)
  {
  }
}
