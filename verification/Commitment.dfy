/**
Committing to a contiguous run of ticks, proving one tick of it, and verifying the proof
(packages/distribution/src/commitment.ts).
*/
module Commitments {
  import opened Prelude
  import opened Digests
  import Merkle

  datatype Commitment = Commitment(
    assetId: string,
    fromSequence: int,
    toSequence: int,
    count: int,
    previousRoot: Hex,
    resumesAfter: Option<int>,
    root: Hex)

  datatype InclusionProof = InclusionProof(
    sequence: int,
    instant: int,
    price: int,
    index: int,
    path: seq<Hex>)
  {
    function Named(): Tick {
      Tick(sequence, instant, price)
    }
  }

  datatype CommitmentError =
    | BadAssetId
    | BadPreviousRoot
    | EmptyRange
    | GappedRange
    | ResumeAtGenesis
    | BadResumesAfter
    | NothingBetween
    | OutsideRange
    | Unencodable

  // ---------------------------------------------------------------- guards

  predicate IsIdCharacter(c: char) {
    'a' <= c <= 'z' || '0' <= c <= '9'
  }

  /** `/^[a-z0-9][a-z0-9._-]{0,63}$/`. */
  predicate IsAssetId(id: string) {
    && 1 <= |id| <= 64
    && IsIdCharacter(id[0])
    && forall i :: 1 <= i < |id| ==> IsIdCharacter(id[i]) || id[i] in "._-"
  }

  /** `/^[0-9a-f]{64}$/i`. */
  predicate IsDigestText(text: Hex) {
    text.Digits?
  }

  predicate IsPreviousRoot(text: Hex) {
    text.Blank? || IsDigestText(text)
  }

  // ---------------------------------------------------------------- the root

  function Fields(link: Commitment): LinkFields {
    LinkFields(link.assetId, link.fromSequence, link.toSequence, link.count, Decode(link.previousRoot))
  }

  /** The root preimage hashed; None where a field does not fit its fixed width and the write throws. */
  function RootOf(fields: LinkFields, resumesAfter: Option<int>, merkle: Digest): Option<Digest> {
    if !(IsU64(fields.fromSequence) && IsU64(fields.toSequence) && IsU64(fields.count)) then None
    else
      match resumesAfter
      case None => Some(Root(fields, merkle))
      case Some(after) => if IsU64(after) then Some(ResumeRoot(fields, after, merkle)) else None
  }

  function Leaves(ticks: seq<Tick>): (leaves: seq<Digest>)
    ensures |leaves| == |ticks|
  {
    seq(|ticks|, i requires 0 <= i < |ticks| => Leaf(ticks[i]))
  }

  predicate AllEncodable(ticks: seq<Tick>) {
    forall i :: 0 <= i < |ticks| ==> ticks[i].Encodable()
  }

  // ---------------------------------------------------------------- commit

  function ResumeRefusal(ticks: seq<Tick>, previousRoot: Hex, resumesAfter: Option<int>): Option<CommitmentError>
    requires ticks != []
  {
    match resumesAfter
    case None => None
    case Some(after) =>
      if previousRoot.Blank? then Some(ResumeAtGenesis)
      else if !IsSafeInteger(after) || after < 0 then Some(BadResumesAfter)
      else if ticks[0].sequence <= after + 1 then Some(NothingBetween)
      else None
  }

  function Commit(assetId: string, ticks: seq<Tick>, previousRoot: Hex, resumesAfter: Option<int>)
    : Result<Commitment, CommitmentError>
  {
    if !IsAssetId(assetId) then Err(BadAssetId)
    else if !IsPreviousRoot(previousRoot) then Err(BadPreviousRoot)
    else if ticks == [] then Err(EmptyRange)
    else if !Contiguous(ticks) then Err(GappedRange)
    else
      match ResumeRefusal(ticks, previousRoot, resumesAfter)
      case Some(error) => Err(error)
      case None =>
        if !AllEncodable(ticks) then Err(Unencodable)
        else
          var fields := LinkFields(assetId, ticks[0].sequence, ticks[|ticks| - 1].sequence,
                                   |ticks|, Decode(previousRoot));
          match RootOf(fields, resumesAfter, Merkle.MerkleRoot(Leaves(ticks)))
          case None => Err(Unencodable)
          case Some(root) =>
            Ok(Commitment(assetId, fields.fromSequence, fields.toSequence, fields.count,
                          previousRoot, resumesAfter, ToHex(root)))
  }

  /** The link is what `commit` returns for this run of ticks behind this predecessor. */
  predicate CommitsTo(link: Commitment, ticks: seq<Tick>) {
    Commit(link.assetId, ticks, link.previousRoot, link.resumesAfter) == Ok(link)
  }

  /** The run behind a link is as long, and starts and ends, where the link says. */
  lemma CommittedRun(link: Commitment, ticks: seq<Tick>)
    requires CommitsTo(link, ticks)
    ensures ticks != [] && Contiguous(ticks) && |ticks| == link.count
    ensures link.fromSequence == ticks[0].sequence
    ensures link.toSequence == ticks[|ticks| - 1].sequence == link.fromSequence + link.count - 1
    ensures forall i :: 0 <= i < |ticks| ==> ticks[i].sequence == link.fromSequence + i
    ensures IsPreviousRoot(link.previousRoot) && link.root.Digits? && link.root == ToHex(link.root.digest)
    ensures RootOf(Fields(link), link.resumesAfter, Merkle.MerkleRoot(Leaves(ticks))) == Some(link.root.digest)
  {
  }

  /**
  A root identifies one record: two links of one root agree in every field the root binds,
  and commit to one run of ticks. The predecessor agrees up to the case of its hex.
  */
  lemma RootBindsRecord(a: Commitment, ta: seq<Tick>, b: Commitment, tb: seq<Tick>)
    requires CommitsTo(a, ta) && CommitsTo(b, tb) && a.root == b.root
    ensures Fields(a) == Fields(b) && a.resumesAfter == b.resumesAfter
    ensures ta == tb
  {
    CommittedRun(a, ta);
    CommittedRun(b, tb);
    Merkle.RootBindsLeaves(Leaves(ta), Leaves(tb));
    forall i | 0 <= i < |ta|
      ensures ta[i] == tb[i]
    {
      assert Leaves(ta)[i] == Leaves(tb)[i];
    }
  }

  // ---------------------------------------------------------------- proveInclusion

  method ComputeProof(ticks: seq<Tick>, sequence: int) returns (r: Result<InclusionProof, CommitmentError>)
    ensures r == ProveInclusion(ticks, sequence)
  {
    if ticks == [] {
      return Err(EmptyRange);
    }
    if !Contiguous(ticks) {
      return Err(GappedRange);
    }
    var index := sequence - ticks[0].sequence;
    if index < 0 || index >= |ticks| {
      return Err(OutsideRange);
    }
    if !AllEncodable(ticks) {
      return Err(Unencodable);
    }
    var path := Merkle.ComputeProvePath(Leaves(ticks), index);
    return Ok(InclusionProof(sequence, ticks[index].instant, ticks[index].price, index, path));
  }

  function ProveInclusion(ticks: seq<Tick>, sequence: int): Result<InclusionProof, CommitmentError> {
    if ticks == [] then Err(EmptyRange)
    else if !Contiguous(ticks) then Err(GappedRange)
    else
      var index := sequence - ticks[0].sequence;
      if index < 0 || index >= |ticks| then Err(OutsideRange)
      else if !AllEncodable(ticks) then Err(Unencodable)
      else
        Ok(InclusionProof(sequence, ticks[index].instant, ticks[index].price, index,
                          Merkle.HexPath(Merkle.ProvePath(Leaves(ticks), index))))
  }

  // ---------------------------------------------------------------- verifyInclusion

  /** Every guard `verifyInclusion` applies before it hashes anything. */
  predicate WellFormedClaim(link: Commitment, proof: InclusionProof) {
    && IsSafeInteger(link.count) && link.count >= 1
    && IsSafeInteger(link.fromSequence)
    && (link.resumesAfter.Some? ==> IsSafeInteger(link.resumesAfter.value) && link.resumesAfter.value >= 0)
    && IsSafeInteger(proof.index) && IsSafeInteger(proof.sequence)
    && IsSafeInteger(proof.instant) && IsSafeInteger(proof.price)
    && 0 <= proof.index < link.count
    && proof.sequence == link.fromSequence + proof.index
  }

  predicate Accepts(link: Commitment, proof: InclusionProof) {
    && WellFormedClaim(link, proof)
    && proof.Named().Encodable()
    && var merkle := Merkle.Replay(Leaf(proof.Named()), proof.index, link.count, proof.path);
    && merkle.Some?
    && var root := RootOf(Fields(link), link.resumesAfter, merkle.value);
    && root.Some? && ToHex(root.value) == link.root
  }

  method VerifyInclusion(link: Commitment, proof: InclusionProof) returns (ok: bool)
    ensures ok == Accepts(link, proof)
  {
    if !WellFormedClaim(link, proof) || !proof.Named().Encodable() {
      return false;
    }
    var merkle := Merkle.ComputeReplay(Leaf(proof.Named()), proof.index, link.count, proof.path);
    if merkle.None? {
      return false;
    }
    var root := RootOf(Fields(link), link.resumesAfter, merkle.value);
    return root.Some? && ToHex(root.value) == link.root;
  }

  /** What the branded types of a published tick guarantee: whole, safe, and inside the accepted instants. */
  predicate Published(tick: Tick) {
    && IsSafeInteger(tick.sequence) && tick.sequence >= 0
    && 0 <= tick.instant <= MAX_EPOCH_MILLIS
    && IsSafeInteger(tick.price)
  }

  predicate AllPublished(ticks: seq<Tick>) {
    forall i :: 0 <= i < |ticks| ==> Published(ticks[i])
  }

  /**
  Completeness: every tick of a committed run has a proof, and the proof verifies. (An array
  is never longer than 2^32 - 1, so its length is a safe integer.)
  */
  lemma InclusionComplete(link: Commitment, ticks: seq<Tick>, sequence: int)
    requires CommitsTo(link, ticks) && AllPublished(ticks) && IsSafeInteger(|ticks|)
    requires link.fromSequence <= sequence <= link.toSequence
    ensures ProveInclusion(ticks, sequence).Ok?
    ensures Accepts(link, ProveInclusion(ticks, sequence).value)
    ensures ProveInclusion(ticks, sequence).value.Named() == ticks[sequence - link.fromSequence]
  {
    CommittedRun(link, ticks);
    var index := sequence - link.fromSequence;
    var proof := ProveInclusion(ticks, sequence).value;
    Merkle.ReplayComplete(Leaves(ticks), index);
    assert Published(ticks[0]) && Published(ticks[index]) && Published(ticks[|ticks| - 1]);
    assert proof.Named() == ticks[index];
    assert Leaf(proof.Named()) == Leaves(ticks)[index];
  }

  /**
  Soundness, against any record that carries a genuine root: what verifies names the
  committed tick at its index, along a path that decodes to the honest one, and the record
  itself agrees with the genuine link in every field the root binds.
  */
  lemma InclusionSound(honest: Commitment, ticks: seq<Tick>, claimed: Commitment, proof: InclusionProof)
    requires CommitsTo(honest, ticks) && claimed.root == honest.root
    requires Accepts(claimed, proof)
    ensures Fields(claimed) == Fields(honest) && claimed.resumesAfter == honest.resumesAfter
    ensures 0 <= proof.index < |ticks| && proof.Named() == ticks[proof.index]
    ensures Merkle.DecodesTo(proof.path, Merkle.ProvePath(Leaves(ticks), proof.index))
  {
    CommittedRun(honest, ticks);
    Merkle.ReplaySound(Leaves(ticks), Leaf(proof.Named()), proof.index, proof.path);
    assert Leaves(ticks)[proof.index] == Leaf(ticks[proof.index]);
  }

  /**
  An accepted proof's record need not be genuine, so its count is only as good as its root:
  two proofs accepted at one index against one root, of whatever record, name one tick.
  */
  lemma AcceptedTickIsUnique(a: Commitment, pa: InclusionProof, b: Commitment, pb: InclusionProof)
    requires Accepts(a, pa) && Accepts(b, pb)
    requires a.root == b.root && pa.index == pb.index
    ensures pa.Named() == pb.Named() && Fields(a) == Fields(b)
    ensures |pa.path| == |pb.path|
    ensures forall i :: 0 <= i < |pa.path| ==> Decode(pa.path[i]) == Decode(pb.path[i])
  {
    ReplayInjective(Leaf(pa.Named()), Leaf(pb.Named()), pa.index, a.count, pa.path, pb.path);
  }

  lemma {:induction false} ReplayInjective(
    h: Digest, k: Digest, cursor: nat, width: nat, p: seq<Hex>, q: seq<Hex>)
    requires cursor < width
    requires Merkle.Replay(h, cursor, width, p).Some?
    requires Merkle.Replay(h, cursor, width, p) == Merkle.Replay(k, cursor, width, q)
    ensures h == k && |p| == |q|
    ensures forall i :: 0 <= i < |p| ==> Decode(p[i]) == Decode(q[i])
    decreases width
  {
    if width > 1 {
      if Merkle.Promoted(cursor, width) {
        ReplayInjective(h, k, cursor / 2, Merkle.Above(width), p, q);
      } else {
        var s, t := Decode(p[0]).digest, Decode(q[0]).digest;
        ReplayInjective(Merkle.Join(cursor, h, s), Merkle.Join(cursor, k, t),
                        cursor / 2, Merkle.Above(width), p[1..], q[1..]);
        forall i | 0 <= i < |p|
          ensures Decode(p[i]) == Decode(q[i])
        {
          if i > 0 {
            assert p[i] == p[1..][i - 1] && q[i] == q[1..][i - 1];
          }
        }
      }
    }
  }
}
