/**
Two verifiers of one chain: the batch form of packages/distribution/src/signing.ts and the
one-link-at-a-time form of packages/distribution/src/commitmentsFile.ts, which says of itself
that it gives the same verdicts. This module settles when that is so.
*/
module VerifierAgreement {
  import opened Prelude
  import opened Digests
  import opened Commitments
  import opened Chains
  import opened Publisher
  import opened Rotations
  import opened SignedChains
  import opened CommitmentsFile
  import Runs = PublicationRuns

  /** No link after the first is a genesis link: the file is one chain. */
  ghost predicate NoRestarts(chain: seq<SignedCommitment>) {
    forall i :: 0 < i < |chain| ==> !chain[i].commitment.previousRoot.Blank?
  }

  /** A head that occurs more than once has nothing signed below its rotation between its places. */
  ghost predicate HeadsSettled(keys: seq<string>, chain: seq<SignedCommitment>, rotations: seq<SignedRotation>) {
    forall i, r | 0 <= i < |chain| && 0 <= r < |rotations| ::
      AfterFirst(chain, rotations, i, r) && !AfterLast(chain, rotations, i, r) ==> AtLeast(keys, chain, i, r)
  }

  ghost predicate RootsDistinct(chain: seq<SignedCommitment>) {
    forall i, j :: 0 <= i < j < |chain| ==> chain[i].commitment.root != chain[j].commitment.root
  }

  // ---------------------------------------------------------------- structure

  lemma PairVerifies(a: Commitment, b: Commitment)
    ensures Verifies([a]) <==> HeadFault(a).None?
    ensures Verifies([a, b]) <==> HeadFault(a).None? && StepFault(a, b, 1).None?
  {
    assert FaultAt([a], 0) == HeadFault(a);
    assert FaultAt([a, b], 0) == HeadFault(a);
    assert FaultAt([a, b], 1) == StepFault(a, b, 1);
  }

  lemma StepIsHead(a: Commitment, b: Commitment, i: nat)
    requires StepFault(a, b, i).None?
    ensures HeadFault(b).None? && !b.previousRoot.Blank?
  {
  }

  lemma ChainStepIsHead(chain: seq<SignedCommitment>, i: nat)
    requires Verifies(LinksOf(chain)) && i < |chain|
    ensures HeadFault(chain[i].commitment).None?
    ensures i > 0 ==>
      && StepFault(chain[i - 1].commitment, chain[i].commitment, i).None?
      && !chain[i].commitment.previousRoot.Blank?
  {
    var links := LinksOf(chain);
    assert FaultAt(links, i).None?;
    if i > 0 {
      StepIsHead(links[i - 1], links[i], i);
    }
  }

  /** Link by link or all at once, the structural verdict on one chain is one verdict. */
  lemma StructureAgrees(chain: seq<SignedCommitment>, assetId: string)
    requires chain != []
    ensures Verifies(LinksOf(chain)) <==>
      NoRestarts(chain) && forall i :: 0 <= i < |chain| ==> Follows(chain, i, assetId)
  {
    var links := LinksOf(chain);
    if Verifies(links) {
      forall i | 0 <= i < |chain|
        ensures Follows(chain, i, assetId) && (i > 0 ==> !chain[i].commitment.previousRoot.Blank?)
      {
        ChainStepIsHead(chain, i);
        if i == 0 {
          PairVerifies(chain[0].commitment, chain[0].commitment);
        } else {
          ChainStepIsHead(chain, i - 1);
          StepFaultNumbering(chain[i - 1].commitment, chain[i].commitment, i, 1);
          PairVerifies(chain[i - 1].commitment, chain[i].commitment);
        }
      }
    }
    if NoRestarts(chain) && forall i :: 0 <= i < |chain| ==> Follows(chain, i, assetId) {
      forall i | 0 <= i < |links|
        ensures FaultAt(links, i).None?
      {
        assert Follows(chain, i, assetId);
        if i == 0 {
          PairVerifies(chain[0].commitment, chain[0].commitment);
        } else {
          StepFaultNumbering(chain[i - 1].commitment, chain[i].commitment, i, 1);
          PairVerifies(chain[i - 1].commitment, chain[i].commitment);
        }
      }
    }
  }

  // ---------------------------------------------------------------- the agreement

  /** A head's last place is not before its first. */
  lemma LastIsNotBeforeFirst(chain: seq<SignedCommitment>, rotations: seq<SignedRotation>, i: nat, r: nat)
    requires i < |chain| && r < |rotations| && AfterLast(chain, rotations, i, r)
    ensures AfterFirst(chain, rotations, i, r)
  {
  }

  /**
  Exactly when the verdicts agree, for every chain and every rotation log: the incremental
  verifier accepts a file that never restarts if and only if the batch verifier accepts the
  chain and no link between two places of one head is signed below that head's rotation.
  */
  lemma VerdictsAgreeIff(crypto: Crypto, chain: seq<SignedCommitment>, genesis: string, rotations: seq<SignedRotation>)
    ensures FileOk(crypto, chain, genesis, rotations) && NoRestarts(chain) <==>
      && SignedChainOk(crypto, chain, genesis, rotations)
      && HeadsSettled(Keys(genesis, rotations), chain, rotations)
  {
    hide Verifies, Succession, Follows, Attributed, AtLeast, AfterFirst, AfterLast, HeadsPresent, Keys, NoRestarts, LinksOf;
    if chain != [] {
      StructureAgrees(chain, chain[0].commitment.assetId);
      forall i, r | 0 <= i < |chain| && 0 <= r < |rotations| && AfterLast(chain, rotations, i, r)
        ensures AfterFirst(chain, rotations, i, r)
      {
        LastIsNotBeforeFirst(chain, rotations, i, r);
      }
    }
  }

  /** On any chain at all, what the incremental verifier accepts as one chain the batch one accepts. */
  lemma IncrementalIsStricter(crypto: Crypto, chain: seq<SignedCommitment>, genesis: string, rotations: seq<SignedRotation>)
    requires FileOk(crypto, chain, genesis, rotations) && NoRestarts(chain)
    ensures SignedChainOk(crypto, chain, genesis, rotations)
  {
    hide *;
    VerdictsAgreeIff(crypto, chain, genesis, rotations);
  }

  lemma DistinctIsSettled(keys: seq<string>, chain: seq<SignedCommitment>, rotations: seq<SignedRotation>)
    requires RootsDistinct(chain)
    ensures HeadsSettled(keys, chain, rotations)
  {
    hide HeadOf, AtLeast;
    forall i, r | 0 <= i < |chain| && 0 <= r < |rotations| && AfterFirst(chain, rotations, i, r)
      ensures AfterLast(chain, rotations, i, r)
    {
      var head := HeadOf(rotations, r, chain[0].commitment.assetId);
      if head.Some? {
        var k :| 0 <= k < i && chain[k].commitment.root == head.value;
        assert forall j :: i <= j < |chain| ==> chain[j].commitment.root != head.value;
      }
    }
  }

  /** With pairwise distinct roots the two verifiers give one verdict on every chain that never restarts. */
  lemma VerdictsAgreeOnDistinctRoots(crypto: Crypto, chain: seq<SignedCommitment>, genesis: string,
                                     rotations: seq<SignedRotation>)
    requires RootsDistinct(chain)
    ensures SignedChainOk(crypto, chain, genesis, rotations) <==>
      FileOk(crypto, chain, genesis, rotations) && NoRestarts(chain)
  {
    hide *;
    VerdictsAgreeIff(crypto, chain, genesis, rotations);
    DistinctIsSettled(Keys(genesis, rotations), chain, rotations);
  }

  /**
  For links that are images of `commit` there is nothing to assume: no root of theirs can
  repeat, so the batch verifier accepts exactly the files the incremental one accepts with
  every break bound.
  */
  lemma VerdictsAgreeOnGenuine(crypto: Crypto, chain: seq<SignedCommitment>, windows: seq<seq<Tick>>,
                               genesis: string, rotations: seq<SignedRotation>)
    requires Committed(LinksOf(chain), windows)
    ensures SignedChainOk(crypto, chain, genesis, rotations) <==>
      && FileOk(crypto, chain, genesis, rotations)
      && forall b :: b in BreaksOf(chain) ==> b.bound
  {
    hide FileOk, Committed, LinksOf, BreaksOf, NoRestarts;
    AllBoundIsNoRestarts(chain);
    VerdictsAgreeIff(crypto, chain, genesis, rotations);
    if SignedChainOk(crypto, chain, genesis, rotations) {
      GenuineIsDistinct(chain, windows);
      DistinctIsSettled(Keys(genesis, rotations), chain, rotations);
    }
  }

  lemma GenuineIsDistinct(chain: seq<SignedCommitment>, windows: seq<seq<Tick>>)
    requires Verifies(LinksOf(chain)) && Committed(LinksOf(chain), windows)
    ensures RootsDistinct(chain)
  {
    hide Verifies, Committed;
    forall i, j | 0 <= i < j < |chain|
      ensures chain[i].commitment.root != chain[j].commitment.root
    {
      GenuineRootsDistinct(LinksOf(chain), windows, i, j);
    }
  }

  // ---------------------------------------------------------------- breaks

  /** Link i resumes the record after an interval nobody committed. */
  ghost predicate StatesBreak(chain: seq<SignedCommitment>, i: nat)
    requires i < |chain|
  {
    i > 0 && (IsRestart(chain, i) || chain[i].commitment.resumesAfter.Some?)
  }

  function BreakAt(chain: seq<SignedCommitment>, i: nat): ChainBreak
    requires 0 < i < |chain|
  {
    var previous := chain[i - 1].commitment;
    ChainBreak(i, previous.toSequence, previous.root, chain[i].commitment.fromSequence, !IsRestart(chain, i))
  }

  lemma BreaksGrow(chain: seq<SignedCommitment>)
    requires |chain| >= 2
    ensures var n := |chain| - 1;
      BreaksOf(chain) == BreaksOf(chain[..n]) + if StatesBreak(chain, n) then [BreakAt(chain, n)] else []
  {
  }

  lemma SameBreak(chain: seq<SignedCommitment>, n: nat, i: nat)
    requires 0 < i < n <= |chain|
    ensures StatesBreak(chain[..n], i) <==> StatesBreak(chain, i)
    ensures BreakAt(chain[..n], i) == BreakAt(chain, i)
  {
  }

  /** The breaks reported are exactly the places that state one. */
  lemma {:induction false} BreaksAre(chain: seq<SignedCommitment>, b: ChainBreak)
    ensures b in BreaksOf(chain) <==>
      exists i :: 0 < i < |chain| && StatesBreak(chain, i) && BreakAt(chain, i) == b
    decreases |chain|
  {
    if |chain| >= 2 {
      var n := |chain| - 1;
      BreaksGrow(chain);
      hide BreaksOf, StatesBreak, BreakAt;
      BreaksAre(chain[..n], b);
      forall i | 0 < i < n
        ensures StatesBreak(chain[..n], i) <==> StatesBreak(chain, i)
        ensures BreakAt(chain[..n], i) == BreakAt(chain, i)
      {
        SameBreak(chain, n, i);
      }
      StateBreaks(chain, n, b);
    }
  }

  /** What the last link adds to the places that state a break. */
  lemma StateBreaks(chain: seq<SignedCommitment>, n: nat, b: ChainBreak)
    requires 0 < n && n + 1 == |chain|
    requires forall i :: 0 < i < n ==>
      (StatesBreak(chain[..n], i) <==> StatesBreak(chain, i)) && BreakAt(chain[..n], i) == BreakAt(chain, i)
    ensures (exists i :: 0 < i < |chain| && StatesBreak(chain, i) && BreakAt(chain, i) == b) <==>
      || (exists i :: 0 < i < n && StatesBreak(chain[..n], i) && BreakAt(chain[..n], i) == b)
      || (StatesBreak(chain, n) && BreakAt(chain, n) == b)
  {
    hide StatesBreak, BreakAt;
    if exists i :: 0 < i < |chain| && StatesBreak(chain, i) && BreakAt(chain, i) == b {
      var i :| 0 < i < |chain| && StatesBreak(chain, i) && BreakAt(chain, i) == b;
      if i < n {
        assert StatesBreak(chain[..n], i);
      }
    }
    if exists i :: 0 < i < n && StatesBreak(chain[..n], i) && BreakAt(chain[..n], i) == b {
      var i :| 0 < i < n && StatesBreak(chain[..n], i) && BreakAt(chain[..n], i) == b;
      assert StatesBreak(chain, i) && BreakAt(chain, i) == b;
    }
  }

  /** And each of those places once, in file order. */
  lemma {:induction false} BreaksInOrder(chain: seq<SignedCommitment>, i: nat, j: nat)
    requires i < j < |BreaksOf(chain)|
    ensures BreaksOf(chain)[i].link < BreaksOf(chain)[j].link
    decreases |chain|
  {
    var n := |chain| - 1;
    var shorter := BreaksOf(chain[..n]);
    if j < |shorter| {
      BreaksInOrder(chain[..n], i, j);
    } else {
      assert shorter[i] in BreaksOf(chain[..n]);
      BreaksAre(chain[..n], shorter[i]);
    }
  }

  lemma AllBoundIsNoRestarts(chain: seq<SignedCommitment>)
    ensures (forall b :: b in BreaksOf(chain) ==> b.bound) <==> NoRestarts(chain)
  {
    hide BreaksOf;
    forall b | b in BreaksOf(chain) && !b.bound
      ensures !NoRestarts(chain)
    {
      BreaksAre(chain, b);
    }
    if !NoRestarts(chain) {
      var i :| 0 < i < |chain| && chain[i].commitment.previousRoot.Blank?;
      assert StatesBreak(chain, i);
      BreaksAre(chain, BreakAt(chain, i));
    }
  }

  // ---------------------------------------------------------------- where they differ

  /** A window of one tick. */
  function OneTick(from: int, previous: Hex, root: Hex): Commitment {
    Commitment("a", from, from, 1, previous, None, root)
  }

  /**
  They do differ on records no writer makes: a chain whose second link repeats its
  predecessor's root, signed by the key a rotation retired at that root, passes the batch
  verifier and not the incremental one.
  */
  lemma RepeatedHeadDisagrees()
    ensures exists crypto, chain, genesis, rotations ::
      && SignedChainOk(crypto, chain, genesis, rotations)
      && NoRestarts(chain)
      && !FileOk(crypto, chain, genesis, rotations)
  {
    var root := ToHex(Opaque(0));
    var chain := [
      SignedCommitment(OneTick(1, Blank, root), "", "old"),
      SignedCommitment(OneTick(2, root, root), "", "old")];
    var rotations := [SignedRotation(KeyRotation(1, "old", "new", [RotationHead("a", root)], ""), "")];
    var crypto := Crypto(_ => true, _ => true, _ => true);
    var keys := Keys("old", rotations);
    assert keys == ["old", "new"];
    assert EpochOf(keys, "old") == Some(0) by {
      assert keys[..1] == ["old"];
    }
    assert HeadOf(rotations, 0, "a") == Some(root);
    assert Succeeds(crypto, "old", rotations, 0) by {
      assert keys[..1] == ["old"];
    }
    assert Holds(chain, 0, 1, root) by {
      assert chain[0].commitment.root == root;
    }
    assert Holds(chain, 1, 2, root) by {
      assert chain[1].commitment.root == root;
    }
    assert Holds(chain, 0, 2, root) by {
      assert chain[0].commitment.root == root;
    }
    assert AfterFirst(chain, rotations, 1, 0) && !AtLeast(keys, chain, 1, 0);
    assert !AfterLast(chain, rotations, 0, 0) && !AfterLast(chain, rotations, 1, 0);
    assert Verifies(LinksOf(chain)) by {
      var links := LinksOf(chain);
      assert FaultAt(links, 0).None? && FaultAt(links, 1).None?;
    }
    assert Attributed(crypto, keys, chain, 0) && Attributed(crypto, keys, chain, 1);
    assert SignedChainOk(crypto, chain, "old", rotations);
  }

  // ---------------------------------------------------------------- a writer's file

  function SignedOf(archive: seq<ClosedWindow>): (chain: seq<SignedCommitment>)
    ensures |chain| == |archive|
    ensures forall i :: 0 <= i < |archive| ==> chain[i] == archive[i].signed
  {
    seq(|archive|, i requires 0 <= i < |archive| => archive[i].signed)
  }

  /**
  Every file every run of one writer leaves, under one key, is accepted link by link, restarts and
  all, by anyone who knows that key; and its unbound breaks are exactly the places
  where the record went back over committed ground.
  */
  lemma EveryRunVerifies(crypto: Crypto, settings: Settings, archive: seq<ClosedWindow>)
    requires Runs.ArchiveSound(settings, archive) && Runs.SignedFrom(settings, archive, 0) && archive != []
    requires crypto.isCanonicalKey(settings.key.publicKey)
    requires forall w :: w in archive ==> crypto.verifiesCommitment(w.signed)
    ensures FileOk(crypto, SignedOf(archive), settings.key.publicKey, [])
    ensures forall i :: 0 < i < |archive| ==>
      (IsRestart(SignedOf(archive), i) <==>
        archive[i].signed.commitment.fromSequence <= archive[i - 1].signed.commitment.toSequence)
  {
    var chain, genesis := SignedOf(archive), settings.key.publicKey;
    assert Keys(genesis, []) == [genesis];
    forall i | 0 <= i < |chain|
      ensures Follows(chain, i, settings.assetId) && Attributed(crypto, Keys(genesis, []), chain, i)
    {
      WindowFollows(settings, archive, i);
      assert archive[i] in archive;
    }
    assert chain[0].commitment.assetId == settings.assetId by {
      assert Runs.WindowSound(settings, archive[0]);
    }
    forall i | 0 < i < |archive|
      ensures IsRestart(chain, i) <==>
        archive[i].signed.commitment.fromSequence <= archive[i - 1].signed.commitment.toSequence
    {
      Runs.LinkShapes(settings, archive, i - 1);
    }
  }

  lemma WindowFollows(settings: Settings, archive: seq<ClosedWindow>, i: nat)
    requires Runs.ArchiveSound(settings, archive) && i < |archive|
    ensures Follows(SignedOf(archive), i, settings.assetId)
  {
    var chain := SignedOf(archive);
    Runs.WindowEnds(settings, archive[i]);
    PairVerifies(chain[i].commitment, chain[i].commitment);
    if i > 0 {
      var previous := archive[i - 1];
      Runs.WindowEnds(settings, previous);
      assert Runs.Follows(previous.signed.commitment, archive[i].signed.commitment);
      WindowIsHead(settings, archive, i - 1);
      PairVerifies(chain[i - 1].commitment, chain[i].commitment);
    }
    WindowIsHead(settings, archive, i);
  }

  lemma WindowIsHead(settings: Settings, archive: seq<ClosedWindow>, i: nat)
    requires Runs.ArchiveSound(settings, archive) && i < |archive|
    ensures HeadFault(archive[i].signed.commitment).None?
  {
    Runs.WindowEnds(settings, archive[i]);
    if i > 0 {
      assert Runs.Follows(archive[i - 1].signed.commitment, archive[i].signed.commitment);
    }
  }
}
