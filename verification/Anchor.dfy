/**
External anchors: summaries of chains placed where the operator does not control them
(packages/distribution/src/anchor.ts).
*/
module Anchors {
  import opened Prelude
  import opened Digests
  import opened Commitments
  import opened Chains
  import opened Publisher
  import opened Rotations
  import opened SignedChains

  /** Two sequences of one record with nothing committed between them, and whether a root ties them together. */
  datatype AnchorBreak = AnchorBreak(afterSequence: int, fromSequence: int, bound: bool)

  datatype AnchorEntry = AnchorEntry(
    assetId: string,
    fromSequence: int,
    toSequence: int,
    commitments: nat,
    breaks: seq<AnchorBreak>,
    headRoot: Hex,
    publicKey: string)

  datatype Anchor = Anchor(version: int, at: int, entries: seq<AnchorEntry>)

  datatype AnchorError =
    | NothingToAnchor
    | NotAChain(fault: Fault)
    | NotOneAsset(at: nat)
    | NotOneRecord(at: nat)
    | AnchoredTwice

  // ---------------------------------------------------------------- summarise

  /** Link i has its place in the record: the genesis, an unbound restart further on, or a bound link. */
  ghost predicate Joins(chain: seq<SignedCommitment>, i: nat)
    requires i < |chain|
  {
    var link := chain[i].commitment;
    if i == 0 then HeadFault(link).None?
    else if link.previousRoot.Blank? then
      && HeadFault(link).None?
      && link.assetId == chain[0].commitment.assetId
      && link.fromSequence > chain[i - 1].commitment.toSequence
    else StepFault(chain[i - 1].commitment, link, i).None?
  }

  /** One asset's record, however many pieces it is in. */
  ghost predicate OneRecord(chain: seq<SignedCommitment>) {
    chain != [] && forall i :: 0 <= i < |chain| ==> Joins(chain, i)
  }

  /** The break link i states, if it states one. */
  function BreakOf(chain: seq<SignedCommitment>, i: nat): seq<AnchorBreak>
    requires i < |chain|
  {
    var link := chain[i].commitment;
    if i == 0 then []
    else if link.previousRoot.Blank? then
      [AnchorBreak(chain[i - 1].commitment.toSequence, link.fromSequence, false)]
    else if link.resumesAfter.Some? then
      [AnchorBreak(link.resumesAfter.value, link.fromSequence, true)]
    else []
  }

  /** Every break the first n links state, in order. */
  function BreaksTo(chain: seq<SignedCommitment>, n: nat): seq<AnchorBreak>
    requires n <= |chain|
  {
    if n == 0 then [] else BreaksTo(chain, n - 1) + BreakOf(chain, n - 1)
  }

  function EntryOf(chain: seq<SignedCommitment>): AnchorEntry
    requires chain != []
  {
    var first, last := chain[0].commitment, chain[|chain| - 1];
    AnchorEntry(first.assetId, first.fromSequence, last.commitment.toSequence, |chain|,
                BreaksTo(chain, |chain|), last.commitment.root, last.publicKey)
  }

  // ---------------------------------------------------------------- what an entry says

  /** Link k says that it does not follow on from the link before it. */
  predicate Declares(chain: seq<SignedCommitment>, k: nat)
    requires 0 < k < |chain|
  {
    chain[k].commitment.previousRoot.Blank? || chain[k].commitment.resumesAfter.Some?
  }

  /** The two sequences on either side of link k's break, and whether k names the root before it. */
  predicate NamesBreak(b: AnchorBreak, chain: seq<SignedCommitment>, k: nat)
    requires 0 < k < |chain|
  {
    var previous, link := chain[k - 1].commitment, chain[k].commitment;
    && b.afterSequence == previous.toSequence && b.fromSequence == link.fromSequence
    && (b.bound <==> !link.previousRoot.Blank? && link.previousRoot == previous.root)
  }

  /** The breaks are those of the links at these places, and every link that declares one is among them. */
  ghost predicate Lists(breaks: seq<AnchorBreak>, chain: seq<SignedCommitment>, n: nat, at: seq<nat>)
    requires n <= |chain|
  {
    && |at| == |breaks|
    && (forall j :: 0 <= j < |at| ==> 0 < at[j] < n && Declares(chain, at[j]) && NamesBreak(breaks[j], chain, at[j]))
    && (forall i, j :: 0 <= i < j < |at| ==> at[i] < at[j])
    && (forall k :: 0 < k < n && Declares(chain, k) ==> k in at)
  }

  /** An entry tells of a chain its asset, its range, its length, its head, and every break in order. */
  ghost predicate Describes(entry: AnchorEntry, chain: seq<SignedCommitment>) {
    && chain != [] && entry.commitments == |chain|
    && (forall k :: 0 <= k < |chain| ==> chain[k].commitment.assetId == entry.assetId)
    && entry.fromSequence == chain[0].commitment.fromSequence
    && entry.toSequence == chain[|chain| - 1].commitment.toSequence
    && entry.headRoot == chain[|chain| - 1].commitment.root
    && entry.publicKey == chain[|chain| - 1].publicKey
    && exists at :: Lists(entry.breaks, chain, |chain|, at)
  }

  lemma BreakOfNames(chain: seq<SignedCommitment>, k: nat)
    requires 0 < k < |chain| && Joins(chain, k)
    ensures |BreakOf(chain, k)| == (if Declares(chain, k) then 1 else 0)
    ensures Declares(chain, k) ==> NamesBreak(BreakOf(chain, k)[0], chain, k)
  {
  }

  lemma {:induction false} BreaksAreListed(chain: seq<SignedCommitment>, n: nat) returns (at: seq<nat>)
    requires OneRecord(chain) && 0 < n <= |chain|
    ensures Lists(BreaksTo(chain, n), chain, n, at)
    decreases n
  {
    hide Joins, Declares, NamesBreak;
    if n == 1 {
      at := [];
      assert BreaksTo(chain, 1) == BreaksTo(chain, 0) + BreakOf(chain, 0);
      assert BreakOf(chain, 0) == [];
    } else {
      var before := BreaksAreListed(chain, n - 1);
      assert Joins(chain, n - 1);
      BreakOfNames(chain, n - 1);
      hide BreakOf;
      at := if Declares(chain, n - 1) then before + [n - 1] else before;
      ListedOneMore(chain, n, before, at);
    }
  }

  lemma ListedOneMore(chain: seq<SignedCommitment>, n: nat, before: seq<nat>, at: seq<nat>)
    requires 1 < n <= |chain| && Lists(BreaksTo(chain, n - 1), chain, n - 1, before)
    requires |BreakOf(chain, n - 1)| == (if Declares(chain, n - 1) then 1 else 0)
    requires Declares(chain, n - 1) ==> NamesBreak(BreakOf(chain, n - 1)[0], chain, n - 1)
    requires at == if Declares(chain, n - 1) then before + [n - 1] else before
    ensures Lists(BreaksTo(chain, n), chain, n, at)
  {
    hide Declares, NamesBreak, BreakOf;
    assert BreaksTo(chain, n) == BreaksTo(chain, n - 1) + BreakOf(chain, n - 1);
    forall k | 0 < k < n && Declares(chain, k)
      ensures k in at
    {
      if k < n - 1 {
        assert k in before;
      } else {
        assert at[|before|] == k;
      }
    }
  }

  lemma {:induction false} OneAsset(chain: seq<SignedCommitment>, k: nat)
    requires OneRecord(chain) && k < |chain|
    ensures chain[k].commitment.assetId == chain[0].commitment.assetId
    decreases k
  {
    if k > 0 {
      OneAsset(chain, k - 1);
      assert Joins(chain, k);
      hide HeadFault;
    }
  }

  /** The entry of one asset's record describes it, break by break. */
  lemma EntryDescribes(chain: seq<SignedCommitment>)
    requires OneRecord(chain)
    ensures Describes(EntryOf(chain), chain)
  {
    hide Joins, BreaksTo, Lists;
    var at := BreaksAreListed(chain, |chain|);
    forall k | 0 <= k < |chain|
      ensures chain[k].commitment.assetId == EntryOf(chain).assetId
    {
      OneAsset(chain, k);
    }
  }

  lemma {:induction false} PlacesAgree(chain: seq<SignedCommitment>, n: nat, b: seq<AnchorBreak>, at: seq<nat>,
                                       c: seq<AnchorBreak>, to: seq<nat>, j: nat)
    requires n <= |chain| && Lists(b, chain, n, at) && Lists(c, chain, n, to)
    requires j < |at|
    ensures j < |to| && at[j] == to[j]
    decreases j
  {
    hide Declares, NamesBreak;
    forall i | 0 <= i < j
      ensures i < |to| && at[i] == to[i]
    {
      PlacesAgree(chain, n, b, at, c, to, i);
    }
    assert at[j] in to;
    var p :| 0 <= p < |to| && to[p] == at[j];
    assert p >= j;
    assert to[j] in at;
    var q :| 0 <= q < |at| && at[q] == to[j];
    assert q >= j;
  }

  /** A chain is described by one entry only: every field is determined. */
  lemma {:induction false} DescribedOnce(chain: seq<SignedCommitment>, a: AnchorEntry, b: AnchorEntry)
    requires Describes(a, chain) && Describes(b, chain)
    ensures a == b
  {
    hide Lists;
    var at :| Lists(a.breaks, chain, |chain|, at);
    var to :| Lists(b.breaks, chain, |chain|, to);
    SameBreaks(chain, a.breaks, at, b.breaks, to);
    assert chain[0].commitment.assetId == a.assetId == b.assetId;
  }

  lemma {:induction false} SameBreaks(chain: seq<SignedCommitment>, b: seq<AnchorBreak>, at: seq<nat>,
                                      c: seq<AnchorBreak>, to: seq<nat>)
    requires Lists(b, chain, |chain|, at) && Lists(c, chain, |chain|, to)
    ensures b == c
  {
    hide Declares;
    forall j | 0 <= j < |at|
      ensures j < |to| && at[j] == to[j]
    {
      PlacesAgree(chain, |chain|, b, at, c, to, j);
    }
    if |to| > |at| {
      PlacesAgree(chain, |chain|, c, to, b, at, |at|);
    }
    if |at| > |to| {
      PlacesAgree(chain, |chain|, b, at, c, to, |to|);
    }
    forall j | 0 <= j < |b|
      ensures b[j] == c[j]
    {
      assert NamesBreak(b[j], chain, at[j]) && NamesBreak(c[j], chain, to[j]);
    }
  }

  /** One summary is of records of one length. */
  lemma SummaryCounts(a: seq<SignedCommitment>, b: seq<SignedCommitment>)
    requires OneRecord(a) && OneRecord(b) && EntryOf(a) == EntryOf(b)
    ensures |a| == |b|
  {
    EntryDescribes(a);
    EntryDescribes(b);
    hide EntryOf, OneRecord, Lists;
  }

  /** In a chain validly signed, the key a summary names is the newest any link is signed with. */
  lemma {:induction false} NewestKeyIsNamed(crypto: Crypto, chain: seq<SignedCommitment>, genesis: string,
                                            rotations: seq<SignedRotation>, entry: AnchorEntry, i: nat)
    requires SignedChainOk(crypto, chain, genesis, rotations) && Describes(entry, chain) && i < |chain|
    ensures EpochOf(Keys(genesis, rotations), entry.publicKey).Some?
    ensures SignedAt(genesis, rotations, chain, i).Some?
    ensures SignedAt(genesis, rotations, chain, i).value <= EpochOf(Keys(genesis, rotations), entry.publicKey).value
  {
    EpochsNeverDecrease(crypto, chain, genesis, rotations, i, |chain| - 1);
    hide SignedChainOk, EpochOf, Keys, Lists;
  }

  // ---------------------------------------------------------------- segments

  /** A slice verifies as a chain of its own exactly when each of its links follows the one before. */
  lemma SliceVerifies(chain: seq<SignedCommitment>, s: nat, e: nat)
    requires s < e <= |chain|
    ensures Verifies(LinksOf(chain[s..e])) <==>
      && HeadFault(chain[s].commitment).None?
      && forall k :: s < k < e ==> StepFault(chain[k - 1].commitment, chain[k].commitment, k).None?
  {
    var links := LinksOf(chain[s..e]);
    assert FaultAt(links, 0) == HeadFault(chain[s].commitment);
    forall k | s < k < e
      ensures FaultAt(links, k - s).None? <==> StepFault(chain[k - 1].commitment, chain[k].commitment, k).None?
    {
      StepFaultNumbering(chain[k - 1].commitment, chain[k].commitment, k - s, k);
    }
    hide StepFault, HeadFault;
    if Verifies(links) {
      forall k | s < k < e
        ensures StepFault(chain[k - 1].commitment, chain[k].commitment, k).None?
      {
        assert FaultAt(links, k - s).None?;
      }
    }
    if HeadFault(chain[s].commitment).None?
      && forall k | s < k < e :: StepFault(chain[k - 1].commitment, chain[k].commitment, k).None?
    {
      forall j | 0 <= j < |links|
        ensures FaultAt(links, j).None?
      {
        if j > 0 {
          var k := j + s;
          assert StepFault(chain[k - 1].commitment, chain[k].commitment, k).None?;
        }
      }
    }
  }

  /**
  The segment from s to e has nothing but bound links after its first; the ones before it are
  joined up to s, and the first passes whatever the loop checks when it opens a segment.
  */
  ghost predicate SegmentOpen(chain: seq<SignedCommitment>, s: nat, e: nat) {
    && s <= e <= |chain| && (s < e || e == 0)
    && (forall k :: 0 <= k < s ==> Joins(chain, k))
    && (forall k :: s < k < e ==> !chain[k].commitment.previousRoot.Blank?)
    && (s > 0 ==>
      && chain[s].commitment.previousRoot.Blank?
      && chain[s].commitment.assetId == chain[0].commitment.assetId
      && chain[s].commitment.fromSequence > chain[s - 1].commitment.toSequence)
  }

  /** A genesis link that claims to resume: the loop lists it twice and refuses it later. */
  ghost predicate Contradicts(chain: seq<SignedCommitment>, n: nat)
    requires n <= |chain|
  {
    exists k :: 0 < k < n && chain[k].commitment.previousRoot.Blank? && chain[k].commitment.resumesAfter.Some?
  }

  /** Verifying the open segment joins every link in it. */
  lemma SegmentCloses(chain: seq<SignedCommitment>, s: nat, e: nat)
    requires SegmentOpen(chain, s, e) && s < e
    ensures Verifies(LinksOf(chain[s..e])) <==> forall k :: 0 <= k < e ==> Joins(chain, k)
  {
    SliceVerifies(chain, s, e);
    hide HeadFault, StepFault, Verifies, LinksOf;
    if forall k :: 0 <= k < e ==> Joins(chain, k) {
      assert Joins(chain, s);
      forall k | s < k < e
        ensures StepFault(chain[k - 1].commitment, chain[k].commitment, k).None?
      {
        assert Joins(chain, k);
      }
    }
  }

  /** A joined genesis link resumes nothing. */
  lemma JoinedIsConsistent(chain: seq<SignedCommitment>, n: nat)
    requires n <= |chain| && forall k :: 0 <= k < n ==> Joins(chain, k)
    ensures !Contradicts(chain, n)
  {
    forall k | 0 < k < n && chain[k].commitment.previousRoot.Blank?
      ensures chain[k].commitment.resumesAfter.None?
    {
      assert Joins(chain, k);
    }
  }

  /** `summarise`: one asset's chain in one entry, or why it is not one asset's record. */
  method Summarise(chain: seq<SignedCommitment>) returns (r: Result<AnchorEntry, AnchorError>)
    ensures r.Ok? <==> OneRecord(chain)
    ensures r.Ok? ==> Describes(r.value, chain)
    ensures r.Ok? ==> r.value == EntryOf(chain)
  {
    if |chain| == 0 {
      return Err(NothingToAnchor);
    }
    hide Joins, Verifies, LinksOf;
    var breaks: seq<AnchorBreak> := [];
    var segmentStart, i := 0, 0;
    while i < |chain|
      invariant 0 <= i <= |chain|
      invariant SegmentOpen(chain, segmentStart, i)
      invariant !Contradicts(chain, i) ==> breaks == BreaksTo(chain, i)
      invariant breaks == breaks[..]
    {
      var link := chain[i].commitment;
      ghost var before := breaks;
      assert Contradicts(chain, i) ==> Contradicts(chain, i + 1);
      if link.resumesAfter.Some? && i > segmentStart {
        breaks := breaks + [AnchorBreak(link.resumesAfter.value, link.fromSequence, true)];
      }
      if i > 0 && link.previousRoot.Blank? {
        SegmentCloses(chain, segmentStart, i);
        var structural := VerifyChain(LinksOf(chain[segmentStart..i]));
        if structural.Some? {
          return Err(NotAChain(structural.value));
        }
        RestartJoins(chain, i);
        if link.assetId != chain[0].commitment.assetId {
          return Err(NotOneAsset(i));
        }
        if link.fromSequence <= chain[i - 1].commitment.toSequence {
          return Err(NotOneRecord(i));
        }
        breaks := breaks + [AnchorBreak(chain[i - 1].commitment.toSequence, link.fromSequence, false)];
        segmentStart := i;
      } else {
        ConcatUnit(breaks);
      }
      i := i + 1;
    }
    SegmentCloses(chain, segmentStart, i);
    var structural := VerifyChain(LinksOf(chain[segmentStart..i]));
    if structural.Some? {
      return Err(NotAChain(structural.value));
    }
    JoinedIsConsistent(chain, i);
    EntryDescribes(chain);
    hide Describes;
    var first, last := chain[0].commitment, chain[|chain| - 1];
    return Ok(AnchorEntry(first.assetId, first.fromSequence, last.commitment.toSequence, |chain|,
                          breaks, last.commitment.root, last.publicKey));
  }

  lemma RestartJoins(chain: seq<SignedCommitment>, i: nat)
    requires 0 < i < |chain| && chain[i].commitment.previousRoot.Blank?
    ensures Joins(chain, i) ==>
      && chain[i].commitment.assetId == chain[0].commitment.assetId
      && chain[i].commitment.fromSequence > chain[i - 1].commitment.toSequence
  {
  }

  // ---------------------------------------------------------------- buildAnchor

  ghost predicate AllOneRecord(chains: seq<seq<SignedCommitment>>) {
    forall i :: 0 <= i < |chains| ==> OneRecord(chains[i])
  }

  /** No two of these chains are for one asset. */
  ghost predicate AssetsDistinct(chains: seq<seq<SignedCommitment>>) {
    forall i, j :: 0 <= i < j < |chains| && chains[i] != [] && chains[j] != [] ==>
      chains[i][0].commitment.assetId != chains[j][0].commitment.assetId
  }

  /** One entry per chain. The source also sorts the entries by asset name. */
  ghost predicate Built(anchor: Anchor, chains: seq<seq<SignedCommitment>>, at: int) {
    && anchor.version == 1 && anchor.at == at && |anchor.entries| == |chains|
    && (forall i :: 0 <= i < |chains| ==> chains[i] != [] && anchor.entries[i] == EntryOf(chains[i]))
  }

  method BuildAnchor(chains: seq<seq<SignedCommitment>>, at: int) returns (r: Result<Anchor, AnchorError>)
    ensures r.Ok? <==> AllOneRecord(chains) && AssetsDistinct(chains)
    ensures r.Ok? ==> Built(r.value, chains, at)
  {
    hide OneRecord;
    var entries: seq<AnchorEntry> := [];
    var i := 0;
    while i < |chains|
      invariant 0 <= i <= |chains| && |entries| == i
      invariant forall k :: 0 <= k < i ==> OneRecord(chains[k]) && chains[k] != [] && entries[k] == EntryOf(chains[k])
    {
      var summary := Summarise(chains[i]);
      if summary.Err? {
        assert !OneRecord(chains[i]);
        return Err(summary.error);
      }
      RecordNotEmpty(chains[i]);
      entries := entries + [summary.value];
      i := i + 1;
    }
    var once := NamesEachOnce(entries);
    return if once then Ok(Anchor(1, at, entries)) else Err(AnchoredTwice);
  }

  lemma RecordNotEmpty(chain: seq<SignedCommitment>)
    requires OneRecord(chain)
    ensures chain != []
  {
  }

  // ---------------------------------------------------------------- breaksDiffer

  method BreaksDiffer(claimed: seq<AnchorBreak>, actual: seq<AnchorBreak>) returns (differ: bool)
    ensures differ <==> claimed != actual
  {
    if |claimed| != |actual| {
      return true;
    }
    var i := 0;
    while i < |actual|
      invariant 0 <= i <= |actual|
      invariant forall k :: 0 <= k < i ==> claimed[k] == actual[k]
    {
      var said, entry := claimed[i], actual[i];
      if said.afterSequence != entry.afterSequence || said.fromSequence != entry.fromSequence || said.bound != entry.bound {
        return true;
      }
      i := i + 1;
    }
    return false;
  }

  // ---------------------------------------------------------------- extendsAnchor

  datatype AnchorFault =
    | UnknownVersion
    | SummarisedTwice
    | NotARecord(error: AnchorError)
    | NotMentioned(assetId: string)
    | Disagrees(assetId: string)
    | NoChainGiven
    | NotSigned(fault: SignedFault)
    | BadEarlierVersion
    | DatedBefore
    | Disappeared(assetId: string)
    | StartsElsewhere(assetId: string)
    | WentBackwards(assetId: string)
    | IntervalsChanged(assetId: string)
    | CommitmentsRemoved(assetId: string)
    | WindowGone(assetId: string)
    | Rewritten(assetId: string)

  /** `map.get`: the map is filled in order, so the last entry for the asset. */
  function LastEntry(entries: seq<AnchorEntry>, assetId: string): (entry: Option<AnchorEntry>)
    ensures entry.Some? ==> entry.value in entries && entry.value.assetId == assetId
    ensures entry.None? ==> forall e :: e in entries ==> e.assetId != assetId
  {
    if entries == [] then None
    else if entries[|entries| - 1].assetId == assetId then Some(entries[|entries| - 1])
    else LastEntry(entries[..|entries| - 1], assetId)
  }

  function LastChain(chains: seq<seq<SignedCommitment>>, assetId: string): (chain: Option<seq<SignedCommitment>>)
    ensures chain.Some? ==>
      chain.value in chains && chain.value != [] && chain.value[0].commitment.assetId == assetId
    ensures chain.None? ==>
      forall c: seq<SignedCommitment> :: c in chains && c != [] ==> c[0].commitment.assetId != assetId
  {
    if chains == [] then None
    else
      var last := chains[|chains| - 1];
      if last != [] && last[0].commitment.assetId == assetId then Some(last)
      else LastChain(chains[..|chains| - 1], assetId)
  }

  /** `chain.find(link => link.toSequence === to)`: the first link ending there. */
  function FirstEndingAt(chain: seq<SignedCommitment>, to: int): (at: Option<nat>)
    ensures at.Some? ==> at.value < |chain| && chain[at.value].commitment.toSequence == to
    ensures at.Some? ==> forall k :: 0 <= k < at.value ==> chain[k].commitment.toSequence != to
    ensures at.None? ==> forall k :: 0 <= k < |chain| ==> chain[k].commitment.toSequence != to
  {
    if chain == [] then None
    else if chain[0].commitment.toSequence == to then Some(0)
    else
      match FirstEndingAt(chain[1..], to)
      case None => None
      case Some(k) => Some(k + 1)
  }

  /** One entry of the earlier anchor is still there: same start, no less of it, same head in the chain. */
  ghost predicate EntryExtends(before: AnchorEntry, later: Anchor, laterChains: seq<seq<SignedCommitment>>) {
    var after := LastEntry(later.entries, before.assetId);
    var chain := LastChain(laterChains, before.assetId);
    && after.Some?
    && after.value.fromSequence == before.fromSequence
    && after.value.toSequence >= before.toSequence
    && before.breaks <= after.value.breaks
    && after.value.commitments >= before.commitments
    && chain.Some?
    && var at := FirstEndingAt(chain.value, before.toSequence);
    && at.Some? && chain.value[at.value].commitment.root == before.headRoot
  }

  ghost predicate Extends(earlier: Anchor, later: Anchor, laterChains: seq<seq<SignedCommitment>>) {
    && earlier.version == 1 && later.version == 1 && later.at >= earlier.at
    && forall i :: 0 <= i < |earlier.entries| ==> EntryExtends(earlier.entries[i], later, laterChains)
  }

  /** One entry's checks, in the source's order. */
  method CheckEntry(before: AnchorEntry, later: Anchor, laterChains: seq<seq<SignedCommitment>>)
    returns (fault: Option<AnchorFault>)
    ensures fault.None? <==> EntryExtends(before, later, laterChains)
  {
    var after := LastEntry(later.entries, before.assetId);
    if after.None? {
      return Some(Disappeared(before.assetId));
    }
    if after.value.fromSequence != before.fromSequence {
      return Some(StartsElsewhere(before.assetId));
    }
    if after.value.toSequence < before.toSequence {
      return Some(WentBackwards(before.assetId));
    }
    if |before.breaks| > |after.value.breaks| {
      return Some(IntervalsChanged(before.assetId));
    }
    var differ := BreaksDiffer(before.breaks, after.value.breaks[..|before.breaks|]);
    if differ {
      return Some(IntervalsChanged(before.assetId));
    }
    if after.value.commitments < before.commitments {
      return Some(CommitmentsRemoved(before.assetId));
    }
    var chain := LastChain(laterChains, before.assetId);
    if chain.None? {
      return Some(NoChainGiven);
    }
    var at := FirstEndingAt(chain.value, before.toSequence);
    if at.None? {
      return Some(WindowGone(before.assetId));
    }
    if chain.value[at.value].commitment.root != before.headRoot {
      return Some(Rewritten(before.assetId));
    }
    return None;
  }

  method ExtendsAnchor(earlier: Anchor, later: Anchor, laterChains: seq<seq<SignedCommitment>>)
    returns (fault: Option<AnchorFault>)
    ensures fault.None? <==> Extends(earlier, later, laterChains)
  {
    hide EntryExtends;
    if earlier.version != 1 {
      return Some(BadEarlierVersion);
    }
    if later.version != 1 {
      return Some(UnknownVersion);
    }
    if later.at < earlier.at {
      return Some(DatedBefore);
    }
    var i := 0;
    while i < |earlier.entries|
      invariant 0 <= i <= |earlier.entries|
      invariant forall k :: 0 <= k < i ==> EntryExtends(earlier.entries[k], later, laterChains)
    {
      fault := CheckEntry(earlier.entries[i], later, laterChains);
      if fault.Some? {
        return;
      }
      i := i + 1;
    }
    return None;
  }

  // ---------------------------------------------------------------- verifyAnchor

  /** Entries and chains match one to one: each chain is one record, and its summary is an entry. */
  ghost predicate Summarises(anchor: Anchor, chains: seq<seq<SignedCommitment>>) {
    && anchor.version == 1
    && (forall i, j :: 0 <= i < j < |anchor.entries| ==> anchor.entries[i].assetId != anchor.entries[j].assetId)
    && AllOneRecord(chains)
    && (forall i :: 0 <= i < |chains| ==> chains[i] != [] && EntryOf(chains[i]) in anchor.entries)
    && (forall i, j :: 0 <= i < j < |chains| ==>
      chains[i] != [] && chains[j] != [] && EntryOf(chains[i]).assetId != EntryOf(chains[j]).assetId)
    && (forall e :: e in anchor.entries ==> exists i :: 0 <= i < |chains| && chains[i] != [] && EntryOf(chains[i]) == e)
  }

  datatype AnchorCheck = AnchorCheck(
    genesisPublicKey: Option<string>,
    rotations: seq<SignedRotation>,
    previous: Option<Anchor>)

  ghost predicate AnchorOk(crypto: Crypto, anchor: Anchor, chains: seq<seq<SignedCommitment>>, check: AnchorCheck) {
    && Summarises(anchor, chains)
    && (check.genesisPublicKey.Some? ==>
      forall i :: 0 <= i < |chains| ==>
        SignedChainOk(crypto, chains[i], check.genesisPublicKey.value, check.rotations))
    && (check.previous.Some? ==> Extends(check.previous.value, anchor, chains))
  }

  /** The first i chains are paired off with entries; the map holds the entries left. */
  ghost predicate Paired(anchor: Anchor, chains: seq<seq<SignedCommitment>>, i: nat,
                         all: map<string, AnchorEntry>, left: map<string, AnchorEntry>)
    requires i <= |chains|
  {
    && (forall k :: 0 <= k < i ==> OneRecord(chains[k]) && chains[k] != [] && EntryOf(chains[k]) in anchor.entries)
    && (forall k :: 0 <= k < i ==> chains[k] != [] && EntryOf(chains[k]).assetId !in left)
    && (forall p, q :: 0 <= p < q < i ==>
      chains[p] != [] && chains[q] != [] && EntryOf(chains[p]).assetId != EntryOf(chains[q]).assetId)
    && (forall id :: id in left ==> id in all && left[id] == all[id] && left[id].assetId == id)
    && (forall id :: id in all && id !in left ==>
      exists k :: 0 <= k < i && chains[k] != [] && EntryOf(chains[k]) == all[id])
  }

  lemma PairOff(anchor: Anchor, chains: seq<seq<SignedCommitment>>, i: nat,
                all: map<string, AnchorEntry>, left: map<string, AnchorEntry>)
    requires i < |chains| && Paired(anchor, chains, i, all, left)
    requires Matches(chains[i], left)
    requires forall id :: id in all ==> all[id] in anchor.entries
    ensures Paired(anchor, chains, i + 1, all, left - {EntryOf(chains[i]).assetId})
  {
    hide OneRecord, EntryOf;
    forall id | id in all && id !in left - {EntryOf(chains[i]).assetId}
      ensures exists k :: 0 <= k < i + 1 && chains[k] != [] && EntryOf(chains[k]) == all[id]
    {
      if id in left {
        assert EntryOf(chains[i]) == all[id];
      }
    }
  }

  /** Everything paired and nothing left is exactly a summary. */
  lemma AllPaired(anchor: Anchor, chains: seq<seq<SignedCommitment>>, all: map<string, AnchorEntry>)
    requires Paired(anchor, chains, |chains|, all, map[])
    requires anchor.version == 1
    requires forall i, j :: 0 <= i < j < |anchor.entries| ==> anchor.entries[i].assetId != anchor.entries[j].assetId
    requires forall e :: e in anchor.entries ==> e.assetId in all && all[e.assetId] == e
    ensures Summarises(anchor, chains)
  {
    hide OneRecord, EntryOf;
  }

  /** Pairing the chains off against the entries by asset, as the map with its deletions does. */
  method MatchEntries(anchor: Anchor, chains: seq<seq<SignedCommitment>>) returns (fault: Option<AnchorFault>)
    requires anchor.version == 1
    requires forall i, j :: 0 <= i < j < |anchor.entries| ==> anchor.entries[i].assetId != anchor.entries[j].assetId
    ensures fault.None? <==> Summarises(anchor, chains)
  {
    hide OneRecord, EntryOf, Summarises, Paired;
    var left := EntriesByAsset(anchor.entries);
    ghost var all := left;
    NonePaired(anchor, chains, all);
    var i := 0;
    while i < |chains|
      invariant 0 <= i <= |chains|
      invariant Paired(anchor, chains, i, all, left)
    {
      LeftAreEntries(anchor, chains, i, all, left);
      fault := MatchChain(chains[i], left);
      if fault.Some? {
        Unmatched(anchor, chains, i, all, left);
        return;
      }
      PairOff(anchor, chains, i, all, left);
      left := left - {chains[i][0].commitment.assetId};
      i := i + 1;
    }
    if left != map[] {
      LeftAreEntries(anchor, chains, i, all, left);
      ghost var id :| id in left;
      UnmatchedEntry(anchor, chains, all, left, id);
      return Some(NoChainGiven);
    }
    AllPaired(anchor, chains, all);
    return None;
  }

  lemma NonePaired(anchor: Anchor, chains: seq<seq<SignedCommitment>>, all: map<string, AnchorEntry>)
    requires forall id :: id in all ==> all[id].assetId == id
    ensures Paired(anchor, chains, 0, all, all)
  {
    hide OneRecord, EntryOf;
  }

  /** What is left is the entries whose chains are still to come. */
  lemma LeftAreEntries(anchor: Anchor, chains: seq<seq<SignedCommitment>>, i: nat,
                       all: map<string, AnchorEntry>, left: map<string, AnchorEntry>)
    requires i <= |chains| && Paired(anchor, chains, i, all, left)
    ensures forall id :: id in left ==> id in all && left[id] == all[id] && left[id].assetId == id
    ensures forall k :: 0 <= k < i ==> chains[k] != [] && EntryOf(chains[k]).assetId !in left
  {
    hide OneRecord, EntryOf;
  }

  /** The chain is one record, and its summary is the entry left for its asset. */
  ghost predicate Matches(chain: seq<SignedCommitment>, left: map<string, AnchorEntry>) {
    && OneRecord(chain) && chain != []
    && EntryOf(chain).assetId in left && left[EntryOf(chain).assetId] == EntryOf(chain)
  }

  /** One chain against the entries left. */
  method MatchChain(chain: seq<SignedCommitment>, left: map<string, AnchorEntry>) returns (fault: Option<AnchorFault>)
    requires forall id :: id in left ==> left[id].assetId == id
    ensures fault.None? <==> Matches(chain, left)
    ensures fault.None? ==> chain != [] && EntryOf(chain).assetId == chain[0].commitment.assetId
  {
    hide OneRecord;
    var summary := Summarise(chain);
    if summary.Err? {
      return Some(NotARecord(summary.error));
    }
    RecordNotEmpty(chain);
    var actual := summary.value;
    if actual.assetId !in left {
      return Some(NotMentioned(actual.assetId));
    }
    var same := SameSummary(left[actual.assetId], actual);
    return if same then None else Some(Disagrees(actual.assetId));
  }

  /** A chain that does not match leaves the anchor in disagreement. */
  lemma Unmatched(anchor: Anchor, chains: seq<seq<SignedCommitment>>, i: nat,
                  all: map<string, AnchorEntry>, left: map<string, AnchorEntry>)
    requires i < |chains| && Paired(anchor, chains, i, all, left) && !Matches(chains[i], left)
    requires forall id :: id in all ==> all[id] in anchor.entries && all[id].assetId == id
    requires forall e :: e in anchor.entries ==> e.assetId in all && all[e.assetId] == e
    requires forall p, q :: 0 <= p < q < |anchor.entries| ==> anchor.entries[p].assetId != anchor.entries[q].assetId
    ensures !Summarises(anchor, chains)
  {
    hide EntryOf;
    if OneRecord(chains[i]) {
      RecordNotEmpty(chains[i]);
      hide OneRecord;
      var id := EntryOf(chains[i]).assetId;
      if id in left {
        DisagreeingChain(anchor, chains, i, left[id]);
      } else {
        UnmatchedChain(anchor, chains, i, all, left);
      }
    }
  }

  /** The field-by-field comparison of a claim with the chain's own summary. */
  method SameSummary(claimed: AnchorEntry, actual: AnchorEntry) returns (same: bool)
    requires claimed.assetId == actual.assetId
    ensures same <==> claimed == actual
  {
    if claimed.headRoot != actual.headRoot || claimed.commitments != actual.commitments {
      return false;
    }
    if claimed.fromSequence != actual.fromSequence || claimed.toSequence != actual.toSequence {
      return false;
    }
    var differ := BreaksDiffer(claimed.breaks, actual.breaks);
    return !differ && claimed.publicKey == actual.publicKey;
  }

  /** The map by asset of entries that name each asset once. */
  method EntriesByAsset(entries: seq<AnchorEntry>) returns (byAsset: map<string, AnchorEntry>)
    requires forall i, j :: 0 <= i < j < |entries| ==> entries[i].assetId != entries[j].assetId
    ensures forall id :: id in byAsset ==> byAsset[id] in entries && byAsset[id].assetId == id
    ensures forall e :: e in entries ==> e.assetId in byAsset && byAsset[e.assetId] == e
  {
    byAsset := map[];
    var i := 0;
    while i < |entries|
      invariant 0 <= i <= |entries|
      invariant forall id :: id in byAsset ==> byAsset[id] in entries[..i] && byAsset[id].assetId == id
      invariant forall k :: 0 <= k < i ==> entries[k].assetId in byAsset && byAsset[entries[k].assetId] == entries[k]
    {
      byAsset := byAsset[entries[i].assetId := entries[i]];
      i := i + 1;
    }
  }

  lemma UnmatchedChain(anchor: Anchor, chains: seq<seq<SignedCommitment>>, i: nat,
                       all: map<string, AnchorEntry>, byAsset: map<string, AnchorEntry>)
    requires i < |chains| && chains[i] != []
    requires forall e :: e in anchor.entries ==> e.assetId in all && all[e.assetId] == e
    requires forall id :: id in all && id !in byAsset ==>
      exists k :: 0 <= k < i && chains[k] != [] && EntryOf(chains[k]) == all[id]
    requires EntryOf(chains[i]).assetId !in byAsset
    ensures !Summarises(anchor, chains)
  {
    hide OneRecord, EntryOf;
    var entry := EntryOf(chains[i]);
    if entry in anchor.entries {
      var k :| 0 <= k < i && chains[k] != [] && EntryOf(chains[k]) == all[entry.assetId];
      assert EntryOf(chains[k]).assetId == EntryOf(chains[i]).assetId;
    }
  }

  lemma DisagreeingChain(anchor: Anchor, chains: seq<seq<SignedCommitment>>, i: nat, claimed: AnchorEntry)
    requires i < |chains| && chains[i] != [] && claimed in anchor.entries
    requires claimed.assetId == EntryOf(chains[i]).assetId && claimed != EntryOf(chains[i])
    ensures !Summarises(anchor, chains)
  {
    hide OneRecord, EntryOf;
    var entry := EntryOf(chains[i]);
    if entry in anchor.entries {
      var p :| 0 <= p < |anchor.entries| && anchor.entries[p] == entry;
      var q :| 0 <= q < |anchor.entries| && anchor.entries[q] == claimed;
      assert p != q && anchor.entries[p].assetId == anchor.entries[q].assetId;
    }
  }

  lemma UnmatchedEntry(anchor: Anchor, chains: seq<seq<SignedCommitment>>,
                       all: map<string, AnchorEntry>, byAsset: map<string, AnchorEntry>, id: string)
    requires id in byAsset && id in all && byAsset[id] == all[id] && all[id] in anchor.entries && all[id].assetId == id
    requires forall k :: 0 <= k < |chains| ==> chains[k] != [] && EntryOf(chains[k]).assetId !in byAsset
    ensures !Summarises(anchor, chains)
  {
    hide OneRecord, EntryOf;
    forall k | 0 <= k < |chains|
      ensures EntryOf(chains[k]) != all[id]
    {
      assert EntryOf(chains[k]).assetId !in byAsset;
    }
  }

  /** Whether an anchor summarises no asset twice: `byAsset.size === entries.length`. */
  method NamesEachOnce(entries: seq<AnchorEntry>) returns (once: bool)
    ensures once <==> forall i, j :: 0 <= i < j < |entries| ==> entries[i].assetId != entries[j].assetId
  {
    var seen: set<string> := {};
    var i := 0;
    while i < |entries|
      invariant 0 <= i <= |entries|
      invariant forall id :: id in seen <==> exists k :: 0 <= k < i && entries[k].assetId == id
      invariant forall p, q :: 0 <= p < q < i ==> entries[p].assetId != entries[q].assetId
    {
      if entries[i].assetId in seen {
        return false;
      }
      seen := seen + {entries[i].assetId};
      i := i + 1;
    }
    return true;
  }

  /** `verifyAnchor`: None when the anchor agrees with the chains, or the first disagreement. */
  method VerifyAnchor(crypto: Crypto, anchor: Anchor, chains: seq<seq<SignedCommitment>>, check: AnchorCheck)
    returns (fault: Option<AnchorFault>)
    ensures fault.None? <==> AnchorOk(crypto, anchor, chains, check)
  {
    hide OneRecord, SignedChainOk, Extends, EntryOf;
    if anchor.version != 1 {
      return Some(UnknownVersion);
    }
    var once := NamesEachOnce(anchor.entries);
    if !once {
      return Some(SummarisedTwice);
    }
    fault := MatchEntries(anchor, chains);
    if fault.Some? {
      return;
    }
    hide Summarises;
    if check.genesisPublicKey.Some? {
      var i := 0;
      while i < |chains|
        invariant 0 <= i <= |chains|
        invariant forall k :: 0 <= k < i ==>
          SignedChainOk(crypto, chains[k], check.genesisPublicKey.value, check.rotations)
      {
        var signatures := VerifySignedChain(crypto, chains[i], check.genesisPublicKey.value, check.rotations);
        if signatures.Some? {
          return Some(AnchorFault.NotSigned(signatures.value));
        }
        i := i + 1;
      }
    }
    if check.previous.Some? {
      fault := ExtendsAnchor(check.previous.value, anchor, chains);
    }
  }

  // ---------------------------------------------------------------- what is built is accepted

  lemma BuiltSummarises(anchor: Anchor, chains: seq<seq<SignedCommitment>>, at: int)
    requires Built(anchor, chains, at) && AllOneRecord(chains) && AssetsDistinct(chains)
    ensures Summarises(anchor, chains)
  {
    hide OneRecord, BreaksTo;
    forall i | 0 <= i < |chains|
      ensures anchor.entries[i].assetId == chains[i][0].commitment.assetId
    {
    }
    hide EntryOf;
    forall e | e in anchor.entries
      ensures exists i :: 0 <= i < |chains| && chains[i] != [] && EntryOf(chains[i]) == e
    {
      var i :| 0 <= i < |anchor.entries| && anchor.entries[i] == e;
      assert EntryOf(chains[i]) == e;
    }
  }

  /**
  An anchor just built is accepted against the chains it was built from, exactly when they pass
  what else is asked for: the signatures if a key is given, the earlier anchor if one is.
  */
  lemma BuiltAnchorVerifiesIff(crypto: Crypto, anchor: Anchor, chains: seq<seq<SignedCommitment>>, at: int, check: AnchorCheck)
    requires Built(anchor, chains, at) && AllOneRecord(chains) && AssetsDistinct(chains)
    ensures AnchorOk(crypto, anchor, chains, check) <==>
      && (check.genesisPublicKey.Some? ==>
        forall i :: 0 <= i < |chains| ==>
          SignedChainOk(crypto, chains[i], check.genesisPublicKey.value, check.rotations))
      && (check.previous.Some? ==> Extends(check.previous.value, anchor, chains))
  {
    BuiltSummarises(anchor, chains, at);
    hide Summarises, SignedChainOk, Extends;
  }

  /** One asset's record is one chain to the structural verifier exactly when it has no unbound break. */
  lemma RecordVerifiesIff(chain: seq<SignedCommitment>)
    requires OneRecord(chain)
    ensures Verifies(LinksOf(chain)) <==> forall k :: 0 < k < |chain| ==> !chain[k].commitment.previousRoot.Blank?
  {
    SliceVerifies(chain, 0, |chain|);
    assert chain[0..|chain|] == chain;
    assert Joins(chain, 0);
    assert HeadFault(chain[0].commitment).None?;
    hide HeadFault, Verifies, LinksOf;
    if forall k :: 0 < k < |chain| ==> !chain[k].commitment.previousRoot.Blank? {
      forall k | 0 < k < |chain|
        ensures StepFault(chain[k - 1].commitment, chain[k].commitment, k).None?
      {
        assert Joins(chain, k);
      }
    } else {
      var k :| 0 < k < |chain| && chain[k].commitment.previousRoot.Blank?;
      BlankIsNoStep(chain[k - 1].commitment, chain[k].commitment, k);
    }
  }

  lemma BlankIsNoStep(previous: Commitment, link: Commitment, i: nat)
    requires link.previousRoot.Blank?
    ensures StepFault(previous, link, i).Some?
  {
  }

  /**
  So a record with an unbound break, which can be anchored, is refused as soon as a genesis key is
  asked for: the signatures are checked on one chain.
  */
  lemma UnboundBreakRefusesAKey(crypto: Crypto, anchor: Anchor, chains: seq<seq<SignedCommitment>>, check: AnchorCheck,
                                i: nat, k: nat)
    requires i < |chains| && 0 < k < |chains[i]| && chains[i][k].commitment.previousRoot.Blank?
    requires check.genesisPublicKey.Some?
    ensures !AnchorOk(crypto, anchor, chains, check)
  {
    hide Extends, Succession, HeadsPresent, Keys, AllAttributed, NoneRetired, EntryOf;
    if OneRecord(chains[i]) {
      RecordVerifiesIff(chains[i]);
      hide OneRecord, Verifies;
      assert !SignedChainOk(crypto, chains[i], check.genesisPublicKey.value, check.rotations);
    }
  }
}
