/**
The structural verifier of a chain of commitments: `verifyChain` of
packages/distribution/src/commitment.ts, and what an accepted chain proves.

The verifier recomputes no root. Its guarantees about content are therefore stated for
genuine links, the images of `commit`; what it checks by itself is stated for any record.
*/
module Chains {
  import opened Prelude
  import opened Digests
  import opened Commitments

  datatype Fault =
    | EmptyChain
    | CountMismatch(at: nat)
    | BadGenesisRoot
    | GenesisResumes
    | NotADigest(at: nat)
    | OtherAsset(at: nat)
    | BrokenLink(at: nat)
    | UnsafeSequence(at: nat)
    | UnsafeResume(at: nat)
    | WrongResumePoint(at: nat)
    | NothingToResume(at: nat)
    | NotTiled(at: nat)

  function CountFault(link: Commitment, i: nat): Option<Fault> {
    if link.toSequence - link.fromSequence + 1 != link.count then Some(CountMismatch(i)) else None
  }

  /** The checks on a chain's first link. */
  function HeadFault(link: Commitment): Option<Fault> {
    if CountFault(link, 0).Some? then CountFault(link, 0)
    else if !IsPreviousRoot(link.previousRoot) then Some(BadGenesisRoot)
    else if link.previousRoot.Blank? && link.resumesAfter.Some? then Some(GenesisResumes)
    else None
  }

  /** The checks on link i against the one before it. */
  function StepFault(previous: Commitment, link: Commitment, i: nat): Option<Fault> {
    if CountFault(link, i).Some? then CountFault(link, i)
    else if !IsDigestText(link.previousRoot) then Some(NotADigest(i))
    else if link.assetId != previous.assetId then Some(OtherAsset(i))
    else if link.previousRoot != previous.root then Some(BrokenLink(i))
    else if !IsSafeInteger(link.toSequence) || !IsSafeInteger(link.fromSequence) then Some(UnsafeSequence(i))
    else
      match link.resumesAfter
      case Some(after) =>
        if !IsSafeInteger(after) then Some(UnsafeResume(i))
        else if after != previous.toSequence then Some(WrongResumePoint(i))
        else if link.fromSequence - previous.toSequence <= 1 then Some(NothingToResume(i))
        else None
      case None =>
        if link.fromSequence - previous.toSequence != 1 then Some(NotTiled(i)) else None
  }

  function FaultAt(chain: seq<Commitment>, i: nat): Option<Fault>
    requires i < |chain|
  {
    if i == 0 then HeadFault(chain[0]) else StepFault(chain[i - 1], chain[i], i)
  }

  /** `verifyChain`: the first problem, or None. */
  method VerifyChain(chain: seq<Commitment>) returns (fault: Option<Fault>)
    ensures fault.None? <==> Verifies(chain)
    ensures chain == [] ==> fault == Some(EmptyChain)
    ensures fault.Some? && chain != [] ==>
      exists i :: 0 <= i < |chain| && FaultAt(chain, i) == fault
        && forall j :: 0 <= j < i ==> FaultAt(chain, j).None?
  {
    if |chain| == 0 {
      return Some(EmptyChain);
    }
    var i := 0;
    while i < |chain|
      invariant 0 <= i <= |chain|
      invariant forall j :: 0 <= j < i ==> FaultAt(chain, j).None?
    {
      if i == 0 {
        var head := HeadFault(chain[0]);
        if head.Some? {
          assert FaultAt(chain, 0) == head;
          return head;
        }
      } else {
        var step := StepFault(chain[i - 1], chain[i], i);
        if step.Some? {
          assert FaultAt(chain, i) == step;
          return step;
        }
      }
      i := i + 1;
    }
    return None;
  }

  /** The chain has links and none of them has a fault. */
  predicate Verifies(chain: seq<Commitment>) {
    chain != [] && forall i :: 0 <= i < |chain| ==> FaultAt(chain, i).None?
  }

  /**
  What acceptance means, independently of the order of the checks: every window is as wide
  as it claims, and after the first each link names its predecessor's root and asset and
  either starts where the predecessor stopped or says, truthfully, that it does not.
  */
  ghost predicate SoundStep(previous: Commitment, link: Commitment) {
    && link.count == link.toSequence - link.fromSequence + 1
    && link.assetId == previous.assetId
    && link.previousRoot.Digits? && link.previousRoot == previous.root
    && IsSafeInteger(link.fromSequence) && IsSafeInteger(link.toSequence)
    && (link.resumesAfter.None? <==> link.fromSequence == previous.toSequence + 1)
    && (link.resumesAfter.Some? ==>
      && link.resumesAfter.value == previous.toSequence < link.fromSequence - 1
      && IsSafeInteger(previous.toSequence))
  }

  ghost predicate SoundHead(link: Commitment) {
    && link.count == link.toSequence - link.fromSequence + 1
    && (link.previousRoot.Blank? || link.previousRoot.Digits?)
    && (link.resumesAfter.Some? ==> !link.previousRoot.Blank?)
  }

  lemma VerifiesMeansSound(chain: seq<Commitment>)
    ensures Verifies(chain) <==>
      && chain != []
      && SoundHead(chain[0])
      && forall i :: 0 < i < |chain| ==> SoundStep(chain[i - 1], chain[i])
  {
    if Verifies(chain) {
      assert FaultAt(chain, 0).None?;
      forall i | 0 < i < |chain|
        ensures SoundStep(chain[i - 1], chain[i])
      {
        assert FaultAt(chain, i).None?;
      }
    }
    if chain != [] && SoundHead(chain[0]) && forall i :: 0 < i < |chain| ==> SoundStep(chain[i - 1], chain[i]) {
      forall i | 0 <= i < |chain|
        ensures FaultAt(chain, i).None?
      {
        if i > 0 {
          assert SoundStep(chain[i - 1], chain[i]);
        }
      }
    }
  }

  // ---------------------------------------------------------------- slices and joins

  /** Any non-empty prefix of an accepted chain is accepted. */
  lemma PrefixVerifies(chain: seq<Commitment>, n: nat)
    requires Verifies(chain) && 0 < n <= |chain|
    ensures Verifies(chain[..n])
  {
    forall i | 0 <= i < n
      ensures FaultAt(chain[..n], i).None?
    {
      assert FaultAt(chain, i).None?;
    }
  }

  /** One more link is accepted exactly when it has no fault against the last one. */
  lemma AppendVerifies(chain: seq<Commitment>, link: Commitment)
    requires Verifies(chain)
    ensures Verifies(chain + [link]) <==> StepFault(chain[|chain| - 1], link, |chain|).None?
  {
    var longer := chain + [link];
    assert longer[|chain| - 1] == chain[|chain| - 1];
    if StepFault(chain[|chain| - 1], link, |chain|).None? {
      forall i | 0 <= i < |longer|
        ensures FaultAt(longer, i).None?
      {
        if i < |chain| {
          assert FaultAt(chain, i).None?;
        }
      }
    } else {
      assert FaultAt(longer, |chain|).Some?;
    }
  }

  /** Which link is at fault does not depend on where it is numbered, only the number does. */
  lemma StepFaultNumbering(previous: Commitment, link: Commitment, i: nat, j: nat)
    ensures StepFault(previous, link, i).None? <==> StepFault(previous, link, j).None?
  {
  }

  // ---------------------------------------------------------------- coverage

  /** Windows of an accepted chain of non-empty windows come in strictly increasing order. */
  lemma {:induction false} SequencesIncrease(chain: seq<Commitment>, i: nat, j: nat)
    requires Verifies(chain) && i < j < |chain|
    requires forall k :: 0 <= k < |chain| ==> chain[k].count >= 1
    ensures chain[i].toSequence < chain[j].fromSequence
    decreases j
  {
    VerifiesMeansSound(chain);
    assert SoundStep(chain[j - 1], chain[j]);
    if i < j - 1 {
      SequencesIncrease(chain, i, j - 1);
      assert j - 1 > 0 && SoundStep(chain[j - 2], chain[j - 1]);
    }
  }

  // ---------------------------------------------------------------- tamper evidence

  /** Windows of ticks behind the links, one run each. */
  ghost predicate Committed(chain: seq<Commitment>, windows: seq<seq<Tick>>) {
    |windows| == |chain| && forall i :: 0 <= i < |chain| ==> CommitsTo(chain[i], windows[i])
  }

  /** One root, and so one value of every field it binds. */
  predicate SameRecord(a: Commitment, b: Commitment) {
    a.root == b.root && Fields(a) == Fields(b) && a.resumesAfter == b.resumesAfter
  }

  /**
  Append-only, step by step: where two accepted chains of genuine links hold one root, they
  hold one link, one window, and one root before it.
  */
  lemma {:induction false} RootDeterminesPast(
    a: seq<Commitment>, wa: seq<seq<Tick>>, i: nat, p: nat,
    b: seq<Commitment>, wb: seq<seq<Tick>>, j: nat, q: nat)
    requires Verifies(a) && Committed(a, wa) && Verifies(b) && Committed(b, wb)
    requires p <= i < |a| && q <= j < |b| && i - p == j - q
    requires a[i].root == b[j].root
    ensures SameRecord(a[p], b[q]) && wa[p] == wb[q]
    decreases i - p
  {
    hide Verifies, CommitsTo;
    if p == i {
      RootBindsRecord(a[i], wa[i], b[j], wb[j]);
    } else {
      RootDeterminesPast(a, wa, i, p + 1, b, wb, j, q + 1);
      NamesPredecessor(a, p);
      NamesPredecessor(b, q);
      SamePredecessor(a[p], wa[p], a[p + 1], b[q], wb[q], b[q + 1]);
    }
  }

  lemma SamePredecessor(
    a: Commitment, ta: seq<Tick>, nextA: Commitment, b: Commitment, tb: seq<Tick>, nextB: Commitment)
    requires CommitsTo(a, ta) && CommitsTo(b, tb)
    requires nextA.previousRoot == a.root && nextB.previousRoot == b.root
    requires SameRecord(nextA, nextB)
    ensures SameRecord(a, b) && ta == tb
  {
    CommittedRun(a, ta);
    CommittedRun(b, tb);
    assert Fields(nextA).previous == Fields(nextB).previous;
    RootBindsRecord(a, ta, b, tb);
  }

  lemma NamesPredecessor(chain: seq<Commitment>, i: nat)
    requires Verifies(chain) && i + 1 < |chain|
    ensures chain[i + 1].previousRoot == chain[i].root
  {
    assert FaultAt(chain, i + 1).None?;
  }

  /** How many predecessors a digest is chained over. */
  function Depth(digest: Digest): nat {
    match digest
    case Root(fields, _) => if fields.previous.Whole? then 1 + Depth(fields.previous.digest) else 0
    case ResumeRoot(fields, _, _) => if fields.previous.Whole? then 1 + Depth(fields.previous.digest) else 0
    case _ => 0
  }

  lemma {:induction false} DepthCounts(chain: seq<Commitment>, windows: seq<seq<Tick>>, i: nat)
    requires Verifies(chain) && Committed(chain, windows) && i < |chain|
    ensures chain[i].root.Digits? && chain[0].root.Digits?
    ensures Depth(chain[i].root.digest) == Depth(chain[0].root.digest) + i
  {
    CommittedRun(chain[i], windows[i]);
    CommittedRun(chain[0], windows[0]);
    if i > 0 {
      DepthCounts(chain, windows, i - 1);
      VerifiesMeansSound(chain);
      assert SoundStep(chain[i - 1], chain[i]);
      CommittedRun(chain[i - 1], windows[i - 1]);
    }
  }

  /** No root repeats in an accepted chain of genuine links: each contains the one before it. */
  lemma GenuineRootsDistinct(chain: seq<Commitment>, windows: seq<seq<Tick>>, i: nat, j: nat)
    requires Verifies(chain) && Committed(chain, windows) && i < j < |chain|
    ensures chain[i].root != chain[j].root
  {
    DepthCounts(chain, windows, i);
    DepthCounts(chain, windows, j);
  }

  /**
  History cannot be restated: two accepted chains of genuine links from a genesis, ending in
  one root, are one chain over one sequence of windows, however each was come by.
  */
  lemma HeadDeterminesHistory(
    a: seq<Commitment>, wa: seq<seq<Tick>>, b: seq<Commitment>, wb: seq<seq<Tick>>)
    requires Verifies(a) && Committed(a, wa) && a[0].previousRoot.Blank?
    requires Verifies(b) && Committed(b, wb) && b[0].previousRoot.Blank?
    requires a[|a| - 1].root == b[|b| - 1].root
    ensures a == b && wa == wb
  {
    SameLengthFromGenesis(a, wa, b, wb);
    hide Verifies, Committed, CommitsTo;
    assert |wa| == |a| && |wb| == |b| by {
      WindowPerLink(a, wa);
      WindowPerLink(b, wb);
    }
    forall i | 0 <= i < |a|
      ensures SameRecord(a[i], b[i]) && wa[i] == wb[i]
    {
      RootDeterminesPast(a, wa, |a| - 1, i, b, wb, |b| - 1, i);
    }
    SameLinks(a, b);
  }

  lemma WindowPerLink(chain: seq<Commitment>, windows: seq<seq<Tick>>)
    requires Committed(chain, windows)
    ensures |windows| == |chain|
  {
  }

  /** Chains that agree in everything the roots bind agree in the spelling of their text too. */
  lemma SameLinks(a: seq<Commitment>, b: seq<Commitment>)
    requires Verifies(a) && Verifies(b) && |a| == |b| && a[0].previousRoot == b[0].previousRoot
    requires forall i :: 0 <= i < |a| ==> SameRecord(a[i], b[i])
    ensures a == b
  {
    forall i | 0 <= i < |a|
      ensures a[i] == b[i]
    {
      assert SameRecord(a[i], b[i]);
      if i > 0 {
        assert SameRecord(a[i - 1], b[i - 1]);
        NamesPredecessor(a, i - 1);
        NamesPredecessor(b, i - 1);
      }
    }
  }

  lemma SameLengthFromGenesis(
    a: seq<Commitment>, wa: seq<seq<Tick>>, b: seq<Commitment>, wb: seq<seq<Tick>>)
    requires Verifies(a) && Committed(a, wa) && a[0].previousRoot.Blank?
    requires Verifies(b) && Committed(b, wb) && b[0].previousRoot.Blank?
    requires a[|a| - 1].root == b[|b| - 1].root
    ensures |a| == |b|
  {
    DepthCounts(a, wa, |a| - 1);
    DepthCounts(b, wb, |b| - 1);
    GenesisDepth(a[0], wa[0]);
    GenesisDepth(b[0], wb[0]);
  }

  lemma GenesisDepth(link: Commitment, ticks: seq<Tick>)
    requires CommitsTo(link, ticks) && link.previousRoot.Blank?
    ensures link.root.Digits? && Depth(link.root.digest) == 0
  {
    CommittedRun(link, ticks);
  }
}
